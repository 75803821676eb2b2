/**
 What the rewriting of a line keeps: the tokens. Read token by token, a rewritten line
 says what the source line said; only white space between tokens, the spelling of a
 one-line string and the quotes of a bare key may differ.
 */
module FormatTokens {
  import opened JsText
  import opened Wrappers
  import opened FormatScan
  import opened FormatDoc
  import opened FormatLines
  import opened FormatRescan
  import opened FormatAgree
  import opened BasicStrings
  import TomlStrings

  /**
   `Text` is a closed one-line string with its decoded content, valid if TOML allows its
   characters and escapes, `Broken` one that is not
   closed on its line, `Raw` a piece of a multi-line string or one of its delimiters, `Note`
   a comment. Blanks at the end of a line belong neither to a note nor to a broken string.
   A `Mark` is joined when it and the next character are of one bare word.
   */
  datatype Token =
    | Text(content: string, valid: bool)
    | Broken(text: string)
    | Raw(text: string)
    | Mark(c: char, joined: bool)
    | Note(text: string)

  /** The characters of bare keys, numbers, dates and booleans. */
  predicate IsWordChar(c: char) {
    IsBareChar(c) || c == '+' || c == '.' || c == ':'
  }

  predicate Joined(s: string) {
    |s| > 1 && IsWordChar(s[0]) && IsWordChar(s[1])
  }

  /** `s` continues neither a string token nor a bare word. */
  predicate Apart(s: string) {
    s == "" || (!IsQuote(s[0]) && !IsWordChar(s[0]))
  }

  function In(m: Multiline): Walked {
    TOML.(multiline := m)
  }

  /** What the closed string that starts `s` says. */
  function TextOf(s: string): Token
    requires s != "" && IsQuote(s[0]) && StringCloses(s)
  {
    StringEndsAtQuote(s);
    var content := s[1..StringEnd(s) - 1];
    if s[0] == '"' then Text(DecodeBasic(content), TomlStrings.BasicContent(content))
    else Text(content, TomlStrings.NoControls(content))
  }

  function TokenAt(s: string, m: Multiline): seq<Token>
    requires s != ""
  {
    if m != Outside then match StepAt(s, 0, In(m)) case Go(n, _) => [Raw(s[..n])] case Stop(_) => []
    else if s[0] == '#' then [Note(StripBlanks(s))]
    else if IsSpace(s[0]) then []
    else if !IsQuote(s[0]) then [Mark(s[0], Joined(s))]
    else if Triple(s, s[0]) then [Raw(s[..3])]
    else if StringCloses(s) then [TextOf(s)]
    else [Broken(StripBlanks(s))]
  }

  /** The tokens of the rest of a line that starts inside or outside a multi-line string. */
  function Read(s: string, m: Multiline): seq<Token>
    decreases |s|
  {
    if s == "" then []
    else
      TokenAt(s, m) +
      match StepAt(s, 0, In(m)) case Stop(_) => [] case Go(n, st) => Read(s[n..], st.multiline)
  }

  /** The line ends outside every multi-line string. */
  predicate EndsWell(s: string, m: Multiline)
    decreases |s|
  {
    if s == "" then m == Outside
    else
      match StepAt(s, 0, In(m))
      case Stop(_) => true
      case Go(n, st) => if st.clean then EndsWell(s[n..], st.multiline) else m == Outside
  }

  // ----- Reading in pieces -----

  lemma StepKind(s: string, pos: nat, st: Walked)
    requires s != "" && st.clean && st.closing == UpToFive
    ensures var a, b := StepAt(s, pos, st), StepAt(s, 0, In(st.multiline));
      a.Go? == b.Go? && (a.Go? ==> a.n == b.n && a.st.multiline == b.st.multiline && a.st.clean == b.st.clean)
  {
  }

  lemma TokenLocal(a: string, r: string, m: Multiline)
    requires a != "" && Apart(r)
    requires var x := StepAt(a, 0, In(m)); x.Go? && x.st.clean
    ensures TokenAt(a + r, m) == TokenAt(a, m) && StepAt(a + r, 0, In(m)) == StepAt(a, 0, In(m))
  {
    hide DecodeBasic, BasicCloses, BasicEnd, LiteralCloses, LiteralEnd;
    StepLocal(a, r, 0, In(m));
    var n := StepAt(a, 0, In(m)).n;
    assert (a + r)[..n] == a[..n] && (a + r)[0] == a[0];
    if m == Outside && IsQuote(a[0]) {
      assert forall q | IsQuote(q) :: Triple(a + r, q) == Triple(a, q);
      if !Triple(a, a[0]) {
        StringPrefix(a, r);
        StringEndsAtQuote(a);
        SliceOfPrefix(a + r, a, n, 1, n - 1);
      }
    }
  }

  /** Reading `a + r` is reading `a` and then `r`, when `a` ends between tokens. */
  lemma {:induction false} ReadAppend(a: string, r: string, pos: nat, st: Walked)
    requires Apart(r) && st.clean && st.closing == UpToFive && Walk(a, pos, st).clean
    ensures Read(a + r, st.multiline) == Read(a, st.multiline) + Read(r, Walk(a, pos, st).multiline)
    decreases |a|
  {
    hide StepAt, TokenAt, Read, Apart;
    if a == "" {
      assert a + r == r;
      NothingRead(st.multiline);
    } else {
      var m, step := st.multiline, StepAt(a, pos, st);
      StepKind(a, pos, st);
      StepColumns(a, pos, st);
      TokenLocal(a, r, m);
      ReadAppend(a[step.n..], r, pos + step.n, step.st);
      assert (a + r)[step.n..] == a[step.n..] + r;
      ReadStep(a, m);
      ReadStep(a + r, m);
    }
  }

  lemma NothingRead(m: Multiline)
    ensures Read("", m) == []
  {
  }

  lemma ReadStep(s: string, m: Multiline)
    requires s != "" && StepAt(s, 0, In(m)).Go?
    ensures var x := StepAt(s, 0, In(m)); Read(s, m) == TokenAt(s, m) + Read(s[x.n..], x.st.multiline)
  {
    hide StepAt, TokenAt;
  }

  lemma {:induction false} ReadSpace(w: string, s: string)
    requires AllSpace(w)
    ensures Read(w + s, Outside) == Read(s, Outside)
    decreases |w|
  {
    if w == "" {
      assert w + s == s;
    } else {
      SpaceRead(w + s);
      assert (w + s)[1..] == w[1..] + s;
      ReadSpace(w[1..], s);
    }
  }

  lemma SpaceRead(s: string)
    requires s != "" && IsSpace(s[0])
    ensures Read(s, Outside) == Read(s[1..], Outside)
  {
    SpaceStep(s, 0, In(Outside));
  }

  lemma ReadOnlySpace(w: string)
    requires AllSpace(w)
    ensures Read(w, Outside) == []
  {
    assert w + "" == w;
    ReadSpace(w, "");
  }

  /** One blank more behind a line that ends well says nothing. */
  lemma {:induction false} ReadTrailingChar(a: string, c: char, m: Multiline)
    requires IsBlank(c) && EndsWell(a + [c], m)
    ensures Read(a + [c], m) == Read(a, m) && EndsWell(a, m)
    decreases |a|
  {
    hide StepAt, TokenAt;
    var b := a + [c];
    if a == "" {
      assert b == [c];
      BlankAlone(c, m);
    } else {
      StepTrailing(a, c, 0, In(m));
      var x, y := StepAt(a, 0, In(m)), StepAt(b, 0, In(m));
      if x.Stop? {
        NoteTrailing(a, c, m);
      } else if x.st.clean {
        TokenLocal(a, [c], m);
        assert b[x.n..] == a[x.n..] + [c];
        ReadTrailingChar(a[x.n..], c, x.st.multiline);
      } else {
        BrokenTrailing(a, c, m);
      }
    }
  }

  lemma BlankAlone(c: char, m: Multiline)
    requires IsBlank(c)
    ensures Read([c], Outside) == [] && (EndsWell([c], m) ==> m == Outside) && EndsWell("", Outside) && Read("", m) == []
  {
    assert [c][1..] == "";
    assert StepAt([c], 0, In(m)) == Go(1, In(m));
    assert EndsWell("", m) <==> m == Outside;
  }

  lemma BrokenTrailing(a: string, c: char, m: Multiline)
    requires a != "" && IsBlank(c) && EndsWell(a + [c], m)
    requires var x := StepAt(a, 0, In(m)); x.Go? && !x.st.clean
    ensures Read(a + [c], m) == Read(a, m) && EndsWell(a, m)
  {
    var b := a + [c];
    assert b[..|a|] == a && b[0] == a[0];
    assert forall q | IsQuote(q) :: Triple(b, q) == Triple(a, q);
    if m == Outside {
      Unclosed(a);
      if StringCloses(b) {
        StringEndsAtQuote(b);
        StringPrefix(a, [c]);
      }
      Unclosed(b);
      assert StripBlanks(b) == StripBlanks(a);
      assert a[|a|..] == "" && b[|b|..] == "";
    }
  }

  lemma NoteTrailing(a: string, c: char, m: Multiline)
    requires a != "" && IsBlank(c) && StepAt(a, 0, In(m)).Stop?
    ensures StepAt(a + [c], 0, In(m)).Stop? && TokenAt(a + [c], m) == TokenAt(a, m)
  {
    assert (a + [c])[..|a|] == a;
  }

  lemma {:induction false} ReadTrailing(a: string, w: string, m: Multiline)
    requires (forall c | c in w :: IsBlank(c)) && EndsWell(a + w, m)
    ensures Read(a + w, m) == Read(a, m)
    decreases |w|
  {
    hide Read, EndsWell, IsBlank;
    if w == "" {
      assert a + w == a;
    } else {
      var front, c := w[..|w| - 1], w[|w| - 1];
      assert a + w == (a + front) + [c];
      ReadTrailingChar(a + front, c, m);
      ReadTrailing(a, front, m);
    }
  }

  lemma {:induction false} StrippedBlanks(s: string)
    ensures forall c | c in s[|StripBlanks(s)|..] :: IsBlank(c)
    decreases |s|
  {
    if s != "" && IsBlank(s[|s| - 1]) {
      var front := s[..|s| - 1];
      StrippedBlanks(front);
      assert s[|StripBlanks(s)|..] == front[|StripBlanks(s)|..] + [s[|s| - 1]];
    }
  }

  /** Stripping the end of a line that ends well says the same. */
  lemma ReadStripped(s: string, m: Multiline)
    requires '\r' !in s && EndsWell(s, m)
    ensures Read(RstripWs(s), m) == Read(s, m)
  {
    hide Read, EndsWell, IsBlank, StripBlanks;
    StripsBlanksOnly(s);
    StrippedBlanks(s);
    StripBlanksSplit(s);
    ReadTrailing(StripBlanks(s), s[|StripBlanks(s)|..], m);
  }

  // ----- Quotes -----

  lemma TokenRead(a: string, r: string)
    requires TokenBefore(a, r)
    ensures Read(a + r, Outside) == [TextOf(a)] + Read(r, Outside)
  {
    hide DecodeBasic, BasicCloses, BasicEnd, LiteralCloses, LiteralEnd;
    TokenStep(a, r, 0, In(Outside));
    StringPrefix(a, r);
    StringEndsAtQuote(a);
    assert (a + r)[|a|..] == r && (a + r)[0] == a[0];
    SliceOfPrefix(a + r, a, |a|, 1, |a| - 1);
    QuoteIsNoSpace(a[0]);
  }

  lemma QuoteIsNoSpace(c: char)
    requires IsQuote(c)
    ensures !IsSpace(c) && c != '#'
  {
  }

  lemma BasicStringText(content: string, r: string)
    requires NoQuoteFirst(r)
    ensures var b := BasicString(content);
      TokenBefore(b, r) && TextOf(b) == Text(content, TomlStrings.NoControls(content))
  {
    hide DecodeBasic, TomlStrings.BasicContent, TomlStrings.NoControls;
    BasicStringToken(content, r);
    LiteralSurvivesRewriting(content);
    EscapedIsValid(content);
    var b := BasicString(content);
    assert b[1..|b| - 1] == Escaped(content);
  }

  /** Escaping makes no character and no escape that TOML rejects. */
  lemma {:induction false} EscapedIsValid(content: string)
    ensures TomlStrings.BasicContent(Escaped(content)) <==> TomlStrings.NoControls(content)
  {
    hide TomlStrings.IsControl;
    if content != "" {
      hide Escaped;
      EscapedIsValid(content[1..]);
      EscapedHead(content);
      HeadIsValid(content[0], Escaped(content[1..]));
      NoControlsStep(content);
    } else {
      assert Escaped(content) == "";
    }
  }

  lemma NoControlsStep(s: string)
    requires s != ""
    ensures TomlStrings.NoControls(s) <==> !TomlStrings.IsControl(s[0]) && TomlStrings.NoControls(s[1..])
  {
    hide TomlStrings.IsControl;
    assert s == [s[0]] + s[1..];
  }

  lemma HeadIsValid(c: char, rest: string)
    ensures TomlStrings.BasicContent((match c case '\\' => "\\\\" case '"' => "\\\"" case x => [x]) + rest)
      <==> !TomlStrings.IsControl(c) && TomlStrings.BasicContent(rest)
  {
    if c == '\\' || c == '"' {
      var s := ['\\', c] + rest;
      assert s[1..] == [c] + rest && s[2..] == rest && s[1..][1..] == rest;
      NoControlsStep(s);
      NoControlsStep(s[1..]);
    } else {
      var s := [c] + rest;
      assert s[1..] == rest;
      NoControlsStep(s);
    }
  }

  lemma SameToken(a: string, r: string)
    requires TokenBefore(a, r)
    ensures var b := if a[0] == '"' then a else BasicString(LiteralContent(a));
      TokenBefore(b, NormalizeQuotes(r)) && TextOf(b) == TextOf(a)
  {
    hide DecodeBasic;
    RewrittenToken(a, r);
    if a[0] == '\'' {
      if r != "" { NormalizeFirst(r); }
      StringEndsAtQuote(a);
      BasicStringText(LiteralContent(a), NormalizeQuotes(r));
    }
  }

  /** Rewriting quotes keeps the tokens: every literal string says in its basic form what it said. */
  lemma {:induction false} ReadNormalized(s: string)
    requires Tidy(s)
    ensures Read(NormalizeQuotes(s), Outside) == Read(s, Outside)
    decreases |s|
  {
    hide StepAt, BasicString, NormalizeQuotes, Triple, Read, TokenAt, TextOf, TokenBefore;
    if s == "" || s[0] == '#' || Triple(s, '"') || Triple(s, '\'') {
      NormalizeStops(s);
    } else if IsQuote(s[0]) {
      TidyToken(s);
      var e := StringEnd(s);
      var a, r := s[..e], s[e..];
      TokenRewrite(a, r);
      TokenShape(a, r);
      SameToken(a, r);
      TokenRead(a, r);
      TokenRead(if a[0] == '"' then a else BasicString(LiteralContent(a)), NormalizeQuotes(r));
      ReadNormalized(r);
    } else {
      NormalizePlain(s);
      PlainRead(s);
      PlainRead(NormalizeQuotes(s));
      SameJoined(s);
      ReadNormalized(s[1..]);
    }
  }

  lemma SameJoined(s: string)
    requires s != "" && !IsQuote(s[0]) && s[0] != '#'
    ensures NormalizeQuotes(s) != "" && NormalizeQuotes(s)[0] == s[0] && Joined(NormalizeQuotes(s)) == Joined(s)
  {
    hide NormalizeQuotes;
    NormalizePlain(s);
    if s[1..] == "" {
      NormalizeStops("");
    } else {
      NormalizeFirst(s[1..]);
      assert NormalizeQuotes(s)[1] == NormalizeQuotes(s)[1..][0];
      assert s[1] == s[1..][0];
    }
  }

  lemma TokenShape(a: string, r: string)
    requires TokenBefore(a, r)
    ensures a != "" && IsQuote(a[0]) && StringCloses(a)
  {
  }

  lemma PlainRead(s: string)
    requires s != "" && !IsQuote(s[0]) && s[0] != '#'
    ensures Read(s, Outside) == (if IsSpace(s[0]) then [] else [Mark(s[0], Joined(s))]) + Read(s[1..], Outside)
  {
  }

  // ----- Lines that end well -----

  lemma {:induction false} EndsWellAppend(a: string, r: string, pos: nat, st: Walked)
    requires Apart(r) && st.clean && st.closing == UpToFive && Walk(a, pos, st).clean
    ensures EndsWell(a + r, st.multiline) == EndsWell(r, Walk(a, pos, st).multiline)
    decreases |a|
  {
    hide StepAt, TokenAt, Apart;
    if a == "" {
      assert a + r == r;
    } else {
      var m, step := st.multiline, StepAt(a, pos, st);
      StepKind(a, pos, st);
      StepColumns(a, pos, st);
      TokenLocal(a, r, m);
      EndsWellAppend(a[step.n..], r, pos + step.n, step.st);
      assert (a + r)[step.n..] == a[step.n..] + r;
    }
  }

  lemma {:induction false} CleanEndsWell(a: string, pos: nat, st: Walked)
    requires st.clean && st.closing == UpToFive && Walk(a, pos, st).clean && Walk(a, pos, st).multiline == Outside
    ensures EndsWell(a, st.multiline)
  {
    hide *;
    assert a + "" == a;
    EmptyEndsWell();
    EndsWellAppend(a, "", pos, st);
  }

  lemma EmptyEndsWell()
    ensures Apart("") && EndsWell("", Outside)
  {
  }

  lemma {:induction false} EndsWellSpace(w: string, s: string)
    requires AllSpace(w)
    ensures EndsWell(w + s, Outside) == EndsWell(s, Outside)
    decreases |w|
  {
    if w == "" {
      assert w + s == s;
    } else {
      SpaceStep(w + s, 0, In(Outside));
      assert (w + s)[1..] == w[1..] + s;
      EndsWellSpace(w[1..], s);
    }
  }

  /** A line that the scanner leaves outside multi-line strings ends well. */
  lemma {:induction false} WalkEndsWell(s: string, pos: nat, st: Walked)
    requires st.clean && st.closing == UpToFive && Walk(s, pos, st).multiline == Outside
    ensures EndsWell(s, st.multiline)
    decreases |s|
  {
    hide StepAt, TokenAt;
    if s != "" {
      StepKind(s, pos, st);
      StepColumns(s, pos, st);
      StepMultiline(s, pos, st);
      var x := StepAt(s, pos, st);
      if x.Go? && x.st.clean {
        WalkEndsWell(s[x.n..], pos + x.n, x.st);
      }
    }
  }

  /** A step that breaks off does not leave or enter a multi-line string. */
  lemma StepMultiline(s: string, pos: nat, st: Walked)
    requires s != "" && st.clean
    ensures var x := StepAt(s, pos, st); x.Go? && !x.st.clean ==> x.st.multiline == st.multiline && s[x.n..] == ""
  {
  }

  // ----- First lines -----

  /** A value's text, as it is handed to the quote rewriter, says what the tail of the line says. */
  lemma ReadValueText(tail: string, open: bool)
    requires '\r' !in tail && (open || EndsWell(tail, Outside))
    ensures Read(if open then TrimStart(tail) else RstripWs(TrimStart(tail)), Outside) == Read(tail, Outside)
  {
    hide Read, EndsWell, RstripWs, TrimStart, AllSpace;
    TrimmedStart(tail);
    var h := TrimStart(tail);
    var w := tail[..|tail| - |h|];
    ReadSpace(w, h);
    if !open {
      EndsWellSpace(w, h);
      ReadStripped(h, Outside);
    }
  }

  lemma EqualsRead(s: string)
    requires s != "" && s[0] == '='
    ensures Read(s, Outside) == [Mark('=', false)] + Read(s[1..], Outside)
  {
    hide Read, IsSpace;
    EqualsIsNoSpace();
    PlainRead(s);
  }

  lemma EqualsIsNoSpace()
    ensures !IsSpace('=')
  {
  }

  lemma ReadSeparator(x: string)
    ensures Read(" = " + x, Outside) == [Mark('=', false)] + Read(x, Outside)
  {
    hide Read, IsSpace;
    SpaceIsSpace();
    var s, a, b := " = " + x, "= " + x, " " + x;
    assert s[1..] == a && a[1..] == b && b[1..] == x;
    SpaceRead(s);
    EqualsRead(a);
    SpaceRead(b);
  }

  lemma {:induction false} ReadAssembled(k: string, v: string, comment: string)
    requires Walk(k, 0, TOML) == TOML
    ensures Read(Assembled(k, v, comment), Outside) == Read(k, Outside) + ([Mark('=', false)] + Read(v + comment, Outside))
  {
    hide Walk, Read;
    assert Assembled(k, v, comment) == k + (" = " + (v + comment));
    ReadAppend(k, " = " + (v + comment), 0, TOML);
    ReadSeparator(v + comment);
  }

  /** A line is its key, the separator and the rest. */
  lemma ReadAtEq(raw: string)
    requires TomlLine(raw, 0, Outside).eq >= 0
    ensures var eq := TomlLine(raw, 0, Outside).eq;
      && eq < |raw|
      && Read(raw, Outside) == Read(raw[..eq], Outside) + ([Mark('=', false)] + Read(raw[eq + 1..], Outside))
  {
    hide Walk, Read;
    var eq := TomlLine(raw, 0, Outside).eq;
    SeparatorAt(raw, UpToFive);
    CutIn(raw, eq);
    ReadAppend(raw[..eq], raw[eq..], 0, TOML);
    EqualsRead(raw[eq..]);
    assert raw[eq..][1..] == raw[eq + 1..];
  }

  lemma ReadNote(c: string)
    requires c != "" && c[0] == '#' && '\r' !in c
    ensures Read(c, Outside) == [Note(StripBlanks(c))]
    ensures Read(" " + RstripWs(c), Outside) == [Note(StripBlanks(c))]
  {
    hide IsSpace;
    HashStays(c);
    StripsBlanksOnly(c);
    var t := StripBlanks(c);
    assert (" " + t)[1..] == t;
    SpaceIsSpace();
    SpaceRead(" " + t);
    StripFixed(t);
  }

  /** The value and the comment of a rewritten line say what those of the line said. */
  lemma {:induction false} PlainTailKept(raw: string)
    requires TidyFirstLine(raw) && FirstAgrees(raw) && '\r' !in raw && ScanLine(raw, 0, Outside).comment < 0
    ensures var s := ScanLine(raw, 0, Outside);
      s.eq < |raw| && KeyOf(raw) <= FirstLine(raw)
      && Read(FirstLine(raw), Outside) == Read(KeyOf(raw), Outside) + ([Mark('=', false)] + Read(raw[s.eq + 1..], Outside))
  {
    hide Walk, Read, EndsWell, NormaliseKey, NormalizeQuotes, Tidy, NormaliseFirstLine, RstripWs, TrimStart, KeyOf, FirstLine, Assembled;
    var s := ScanLine(raw, 0, Outside);
    SeparatorAt(raw, UpToFive);
    ScanColumns(raw);
    FirstStable(raw);
    var open, k, tail := s.multiline != Outside, KeyOf(raw), raw[s.eq + 1..];
    FirstLineShape(raw);
    var v := NormalizeQuotes(ValueText(raw, s.eq, s.comment, open));
    ReadAssembled(k, v, "");
    AssembledHead(k, v, "");
    if !open {
      WalkEndsWell(raw, 0, TOML);
      TailEndsWell(raw);
    }
    ReadValueText(tail, open);
    ReadNormalized(ValueText(raw, s.eq, s.comment, open));
    assert v + "" == v;
  }

  lemma AssembledHead(k: string, v: string, comment: string)
    ensures k <= Assembled(k, v, comment)
  {
  }

  lemma TailEndsWell(raw: string)
    requires TomlLine(raw, 0, Outside).eq >= 0 && EndsWell(raw, Outside)
    ensures var eq := TomlLine(raw, 0, Outside).eq; eq < |raw| && EndsWell(raw[eq + 1..], Outside)
  {
    hide Walk;
    var eq := TomlLine(raw, 0, Outside).eq;
    SeparatorAt(raw, UpToFive);
    CutIn(raw, eq);
    EndsWellAppend(raw[..eq], raw[eq..], 0, TOML);
    assert raw[eq..][1..] == raw[eq + 1..];
  }

  lemma {:induction false} CommentedTailKept(raw: string)
    requires TidyFirstLine(raw) && FirstAgrees(raw) && '\r' !in raw && ScanLine(raw, 0, Outside).comment >= 0
    ensures var s := ScanLine(raw, 0, Outside);
      s.eq < |raw| && KeyOf(raw) <= FirstLine(raw)
      && Read(FirstLine(raw), Outside) == Read(KeyOf(raw), Outside) + ([Mark('=', false)] + Read(raw[s.eq + 1..], Outside))
  {
    hide Walk, Read, EndsWell, NormaliseKey, NormalizeQuotes, Tidy, NormaliseFirstLine, RstripWs, TrimStart, KeyOf, FirstLine, Assembled, IsSpace, StripBlanks;
    var s := ScanLine(raw, 0, Outside);
    var k, e := KeyOf(raw), TOML.(eq := s.eq);
    CutComment(raw, UpToFive);
    FirstStable(raw);
    ScanColumns(raw);
    FirstLineShape(raw);
    var tail, c := raw[s.eq + 1..s.comment], raw[s.comment..];
    var x := RstripWs(TrimStart(tail));
    var v := NormalizeQuotes(x);
    assert ValueText(raw, s.eq, s.comment, false) == x;
    ReadAssembled(k, v, " " + RstripWs(c));
    AssembledHead(k, v, " " + RstripWs(c));
    ValueScan(tail, false, s.eq + 1, e, |k| + 3, AfterEq(k, UpToFive));
    ReadAppend(v, " " + RstripWs(c), |k| + 3, AfterEq(k, UpToFive));
    ReadAppend(tail, c, s.eq + 1, e);
    ReadNote(c);
    CleanEndsWell(tail, s.eq + 1, e);
    ReadValueText(tail, false);
    ReadNormalized(x);
  }

  /** A bare key and the quoted one say the same. */
  ghost predicate SameKey(k: string, raw: string) {
    Read(k, Outside) == Read(raw, Outside) || (IsBare(k) && Read(raw, Outside) == [Text(k, true)])
  }

  lemma KeyKept(a: string)
    requires Walk(a, 0, TOML) == TOML && Tidy(Trim(a))
    ensures SameKey(NormaliseKey(a), a)
  {
    hide Walk, Read, Tidy, NormalizeQuotes, Trim, IsBare, FormatDoc.Unquoted;
    var t, y := Trim(a), NormalizeQuotes(Trim(a));
    ReadTrimmed(a);
    ReadNormalized(t);
    UnquotedRead(y);
  }

  lemma ReadTrimmed(a: string)
    requires Walk(a, 0, TOML) == TOML
    ensures Read(Trim(a), Outside) == Read(a, Outside)
  {
    hide Walk, Read, Trim, AllSpace, IsSpace;
    var w1, w2 := TrimParts(a);
    var t := Trim(a);
    WalkTrim(a, UpToFive);
    Regroup(w1, t, w2);
    ReadSpace(w1, t + w2);
    SpacesApart(w2);
    ReadAppend(t, w2, 0, TOML);
    ReadOnlySpace(w2);
  }

  lemma SpacesApart(w: string)
    requires AllSpace(w)
    ensures Apart(w)
  {
    if w != "" {
      SpaceIsApart(w[0]);
    }
  }

  lemma SpaceIsApart(c: char)
    requires IsSpace(c)
    ensures !IsQuote(c) && !IsWordChar(c)
  {
  }

  lemma UnquotedRead(y: string)
    ensures SameKey(FormatDoc.Unquoted(y), y)
  {
    hide Read, IsBare;
    if FormatDoc.Unquoted(y) != y {
      var content := FormatDoc.Unquoted(y);
      assert y == "\"" + content + "\"" by { assert y[1..|y| - 1] == content; }
      BareIsPlain(content);
      PlainEscapes(content);
      BasicStringText(content, "");
      TokenRead(BasicString(content), "");
      NothingRead(Outside);
      assert BasicString(content) + "" == y;
    }
  }

  lemma BareIsPlain(content: string)
    requires IsBare(content)
    ensures '"' !in content && '\\' !in content && TomlStrings.NoControls(content)
  {
  }

  /** Letters, digits, underscores and hyphens, at least one: a key that needs no quotes. */
  predicate NeedsNoQuotes(k: string) {
    k != "" && forall i | 0 <= i < |k| ::
      'A' <= k[i] <= 'Z' || 'a' <= k[i] <= 'z' || '0' <= k[i] <= '9' || k[i] == '_' || k[i] == '-'
  }

  /** A key that needs no quotes is written without, however it was quoted and padded. */
  lemma BareKeyWritten(k: string, spelling: string, w1: string, w2: string)
    requires NeedsNoQuotes(k) && AllSpace(w1) && AllSpace(w2)
    requires spelling == k || spelling == "\"" + k + "\"" || spelling == "'" + k + "'"
    ensures NormaliseKey(w1 + spelling + w2) == k
  {
    hide Trim, NormalizeQuotes, AllSpace, IsSpace, IsBare, FormatDoc.Unquoted;
    assert IsBare(k) by { NeedsNone(k); }
    BareTrimmed(k);
    QuotesAreNoSpace();
    TrimPadded(w1, spelling, w2);
    if spelling == k {
      BareChars(k);
      NormalizeBare(k);
    } else {
      QuotesRewritten(k, spelling);
    }
    KeyUnquoted(k);
  }

  lemma NeedsNone(k: string)
    requires NeedsNoQuotes(k)
    ensures IsBare(k)
  {
  }

  lemma BareChars(k: string)
    requires IsBare(k)
    ensures forall c | c in k :: IsBareChar(c)
  {
  }

  lemma KeyUnquoted(k: string)
    requires IsBare(k)
    ensures FormatDoc.Unquoted(k) == k && FormatDoc.Unquoted("\"" + k + "\"") == k
  {
    BareIsPlain(k);
    UnquotedCases(k);
    assert ("\"" + k + "\"")[1..|k| + 1] == k;
  }

  lemma QuotesRewritten(k: string, spelling: string)
    requires IsBare(k) && (spelling == "\"" + k + "\"" || spelling == "'" + k + "'")
    ensures NormalizeQuotes(spelling) == "\"" + k + "\""
  {
    hide NormalizeQuotes, IsBare;
    BareIsPlain(k);
    PlainEscapes(k);
    NothingNormalised();
    QuotedKeyToken(k, spelling);
    TokenRewrite(spelling, "");
    assert spelling + "" == spelling;
  }

  lemma QuotesAreNoSpace()
    ensures !IsSpace('"') && !IsSpace('\'')
  {
  }

  lemma NothingNormalised()
    ensures NormalizeQuotes("") == ""
  {
  }

  lemma QuotedKeyToken(k: string, spelling: string)
    requires IsBare(k) && (spelling == "\"" + k + "\"" || spelling == "'" + k + "'")
    ensures TokenBefore(spelling, "") && (spelling[0] == '\'' ==> LiteralContent(spelling) == k)
  {
    BareIsPlain(k);
    assert k[0] in k && k[|k| - 1] in k;
    if spelling[0] == '"' {
      BasicStringToken(k, "");
      PlainEscapes(k);
    } else {
      forall j | 1 <= j < |spelling| - 1 ensures spelling[j] != '\'' {
        assert spelling[j] == k[j - 1] && k[j - 1] in k;
      }
      LiteralEnds(spelling, 1, |spelling| - 1);
      assert spelling[1..|spelling| - 1] == k;
      assert spelling + "" == spelling && spelling[1] == k[0];
    }
  }

  lemma {:induction false} LiteralEnds(s: string, from: nat, end: nat)
    requires from <= end < |s| && s[end] == '\'' && forall j | from <= j < end :: s[j] != '\''
    ensures LiteralCloses(s, from) && LiteralEnd(s, from) == end + 1
    decreases end - from
  {
    if from < end { LiteralEnds(s, from + 1, end); }
  }

  lemma {:induction false} ReplaceNothing(s: string, c: char, text: string)
    requires c !in s
    ensures ReplaceAll(s, c, text) == s
  {
    if s != "" {
      ReplaceNothing(s[1..], c, text);
    }
  }

  lemma PlainEscapes(content: string)
    requires '"' !in content && '\\' !in content
    ensures BasicString(content) == "\"" + content + "\""
  {
    ReplaceNothing(content, '\\', "\\\\");
    ReplaceNothing(content, '"', "\\\"");
  }

  /** The rewritten line starts with the same key, and from the separator on it has the same tokens. */
  lemma FirstLineKept(raw: string)
    requires TidyFirstLine(raw) && FirstAgrees(raw) && '\r' !in raw
    ensures var eq := ScanLine(raw, 0, Outside).eq;
      && eq < |raw| && KeyOf(raw) <= FirstLine(raw)
      && SameKey(KeyOf(raw), raw[..eq])
      && Read(raw, Outside) == Read(raw[..eq], Outside) + Read(raw[eq..], Outside)
      && Read(FirstLine(raw), Outside) == Read(KeyOf(raw), Outside) + Read(raw[eq..], Outside)
  {
    hide Walk, Read, EndsWell, NormaliseKey, Tidy, FirstLine, SameKey;
    var eq := ScanLine(raw, 0, Outside).eq;
    SeparatorAt(raw, UpToFive);
    ReadAtEq(raw);
    EqualsRead(raw[eq..]);
    assert raw[eq..][1..] == raw[eq + 1..];
    KeyKept(raw[..eq]);
    if ScanLine(raw, 0, Outside).comment < 0 {
      PlainTailKept(raw);
    } else {
      CommentedTailKept(raw);
    }
  }

  // ----- Continuation lines -----

  lemma ContinuationKept(line: string, depth: nat)
    requires '\r' !in line && Tidy(RstripWs(line)) && TomlLine(line, depth, Outside).multiline == Outside
    ensures Read(NormaliseContinuation(line), Outside) == Read(line, Outside)
  {
    hide Read, EndsWell, Tidy, NormalizeQuotes, RstripWs, Walk;
    WalkEndsWell(line, 0, TOML.(depth := depth));
    ReadStripped(line, Outside);
    ReadNormalized(RstripWs(line));
  }

  /** The tokens of the lines behind a value's first one, line by line, down to the line that closes it. */
  function ReadRest(rest: seq<string>, depth: nat, multiline: Multiline): seq<seq<Token>> {
    if (depth == 0 && multiline == Outside) || rest == [] then []
    else
      var after := TomlLine(rest[0], depth, multiline);
      [Read(rest[0], multiline)] + ReadRest(rest[1..], after.depth, after.multiline)
  }

  lemma {:induction false} RestKept(rest: seq<string>, depth: nat, multiline: Multiline)
    requires PlainLines(rest) && TidyRest(rest, depth, multiline) && RestAgrees(rest, depth, multiline)
    requires Continue(rest, depth, multiline).Some?
    ensures ReadRest(Continue(rest, depth, multiline).value, depth, multiline) == ReadRest(rest, depth, multiline)
  {
    hide ScanLine, TomlLine, NormaliseContinuation, Tidy, RstripWs, Read, EndsWell;
    if !(depth == 0 && multiline == Outside) {
      var after := ScanLine(rest[0], depth, multiline);
      var lines := Continue(rest, depth, multiline).value;
      if multiline == Outside && after.multiline == Outside {
        ContinuationStable(rest[0], depth);
        TomlContinuation(rest[0], depth);
        ContinuationKept(rest[0], depth);
      }
      RestKept(rest[1..], after.depth, after.multiline);
      assert lines[1..] == Continue(rest[1..], after.depth, after.multiline).value;
    }
  }

  // ----- Key/value constructs -----

  /**
   A key/value construct and its rewritten form say the same: the same key, the same
   value and comments, token by token and line by line.
   */
  lemma ConstructKept(lines: seq<string>, line: nat)
    requires lines != [] && PlainLines(lines) && ScanLine(lines[0], 0, Outside).eq >= 0
    requires ConsumeKv(lines, line).Ok? && TidyKv(lines) && ConstructAgrees(lines)
    ensures var c, scan := ConsumeKv(lines, line).value, TomlLine(lines[0], 0, Outside);
      && c.lines != [] && scan.eq < |lines[0]| && SameKey(c.key, lines[0][..scan.eq])
      && Read(lines[0], Outside) == Read(lines[0][..scan.eq], Outside) + Read(lines[0][scan.eq..], Outside)
      && Read(c.lines[0], Outside) == Read(c.key, Outside) + Read(lines[0][scan.eq..], Outside)
      && ReadRest(c.lines[1..], scan.depth, scan.multiline) == ReadRest(lines[1..], scan.depth, scan.multiline)
  {
    hide Walk, FirstLine, KeyOf, ConsumeKv, Continue, TidyFirstLine, TidyRest, EndsWell, Read, ReadRest, SameKey, RestAgrees;
    var scan := ScanLine(lines[0], 0, Outside);
    ConsumeShape(lines, line);
    FirstLineKept(lines[0]);
    RestKept(lines[1..], scan.depth, scan.multiline);
    var c := ConsumeKv(lines, line).value;
    assert c.lines[1..] == Continue(lines[1..], scan.depth, scan.multiline).value;
  }

  // ----- Headers -----

  /** A text without its white space. */
  function Ink(s: string): string {
    if s == "" then "" else (if IsSpace(s[0]) then "" else [s[0]]) + Ink(s[1..])
  }

  lemma {:induction false} InkConcat(a: string, b: string)
    ensures Ink(a + b) == Ink(a) + Ink(b)
  {
    hide IsSpace;
    if a == "" {
      assert a + b == b;
    } else {
      assert (a + b)[1..] == a[1..] + b && (a + b)[0] == a[0];
      InkConcat(a[1..], b);
      Regroup(if IsSpace(a[0]) then "" else [a[0]], Ink(a[1..]), Ink(b));
    }
  }

  lemma {:induction false} InkOfSpace(w: string)
    requires AllSpace(w)
    ensures Ink(w) == ""
  {
    if w != "" {
      assert w[0] in w;
      InkOfSpace(w[1..]);
    }
  }

  lemma InkTrimmed(s: string)
    ensures Ink(Trim(s)) == Ink(s)
  {
    hide Ink, Trim, AllSpace;
    var w1, w2 := TrimParts(s);
    InkConcat(w1 + Trim(s), w2);
    InkConcat(w1, Trim(s));
    InkOfSpace(w1);
    InkOfSpace(w2);
  }

  lemma {:induction false} InkLength(s: string)
    ensures |Ink(s)| <= |s| && (|Ink(s)| == |s| ==> Ink(s) == s)
  {
    if s != "" {
      InkLength(s[1..]);
    }
  }

  function Opening(trimmed: string): string {
    if IsArrayHeader(trimmed) then "[[" else "["
  }

  function Closing(trimmed: string): string {
    if IsArrayHeader(trimmed) then "]]" else "]"
  }

  /** Nothing stands behind the closing brackets. */
  predicate ClosesLast(trimmed: string) {
    var n := |Closing(trimmed)|;
    |trimmed| >= n && trimmed[|trimmed| - n..] == Closing(trimmed)
  }

  /**
   A rewritten header keeps all but the white space around its name if and only if the
   line ends with the brackets: a comment behind them loses its end.
   */
  lemma HeaderKept(trimmed: string)
    requires trimmed != "" && trimmed[0] == '['
    ensures Ink(NormaliseHeader(trimmed)) == Ink(trimmed) <==> ClosesLast(trimmed)
    ensures ClosesLast(trimmed) ==> exists name ::
      trimmed == Opening(trimmed) + name + Closing(trimmed) &&
      NormaliseHeader(trimmed) == Opening(trimmed) + Trim(name) + Closing(trimmed)
  {
    hide Ink, Trim;
    BracketInk();
    if |trimmed| < 2 * |Opening(trimmed)| {
      ShortHeader(trimmed);
    } else {
      var name, end := HeaderParts(trimmed);
      BracketsMatch(Opening(trimmed), name, end, Closing(trimmed));
    }
  }

  lemma HeaderParts(trimmed: string) returns (name: string, end: string)
    requires trimmed != "" && trimmed[0] == '[' && |trimmed| >= 2 * |Opening(trimmed)|
    ensures trimmed == Opening(trimmed) + name + end && |end| == |Closing(trimmed)|
    ensures ClosesLast(trimmed) <==> end == Closing(trimmed)
    ensures NormaliseHeader(trimmed) == Opening(trimmed) + Trim(name) + Closing(trimmed)
  {
    hide Trim;
    var n := |Opening(trimmed)|;
    name, end := trimmed[n..|trimmed| - n], trimmed[|trimmed| - n..];
    assert trimmed[..n] == Opening(trimmed);
    assert trimmed == trimmed[..n] + name + end;
  }

  lemma BracketsMatch(open: string, name: string, end: string, close: string)
    requires |end| == |close| && Ink(close) == close
    ensures Ink(open + Trim(name) + close) == Ink(open + name + end) <==> end == close
  {
    hide Ink, Trim;
    InkParts(open, name, end);
    InkParts(open, Trim(name), close);
    InkTrimmed(name);
    InkLength(end);
    SamePrefix(Ink(open) + Ink(name), Ink(end), close);
  }

  lemma SamePrefix(a: string, b: string, c: string)
    ensures a + b == a + c <==> b == c
  {
    assert (a + b)[|a|..] == b && (a + c)[|a|..] == c;
  }

  lemma BracketInk()
    ensures Ink("]") == "]" && Ink("]]") == "]]" && Ink("[") == "[" && Ink("[[") == "[["
  {
    assert "]]"[1..] == "]" && "[["[1..] == "[" && "]"[1..] == "" && "["[1..] == "";
  }

  lemma InkParts(a: string, b: string, c: string)
    ensures Ink(a + b + c) == Ink(a) + Ink(b) + Ink(c)
  {
    hide Ink;
    InkConcat(a + b, c);
    InkConcat(a, b);
  }

  lemma ShortHeader(trimmed: string)
    requires trimmed != "" && trimmed[0] == '[' && |trimmed| < 2 * |Opening(trimmed)|
    ensures Ink(NormaliseHeader(trimmed)) != Ink(trimmed) && !ClosesLast(trimmed)
  {
    hide Ink, Trim;
    var open, close, n := Opening(trimmed), Closing(trimmed), |Closing(trimmed)|;
    OpenBeforeClose(trimmed, n);
    InkLength(trimmed);
    BracketInk();
    TrimFixed("");
    assert NormaliseHeader(trimmed) == open + "" + close;
    InkParts(open, "", close);
    InkLength("");
  }

  lemma OpenBeforeClose(trimmed: string, n: nat)
    requires trimmed != "" && trimmed[0] == '[' && n == |Closing(trimmed)| && |trimmed| < 2 * n
    ensures !ClosesLast(trimmed)
  {
    if |trimmed| >= n {
      var k := |trimmed| - n;
      assert trimmed[k..][0] == trimmed[k];
      assert n == 2 ==> trimmed[..2][1] == trimmed[1];
      assert trimmed[k] == '[' && Closing(trimmed)[0] == ']';
    }
  }
}
