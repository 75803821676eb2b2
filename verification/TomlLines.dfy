/**
 How TOML v1.0.0 reads the lines of a document, token by token: the path a header names up to
 its closing brackets, and the key and the value of a key/value construct. Comments are not
 part of either.
 */
module TomlLines {
  import opened JsText
  import opened Wrappers
  import opened FormatScan
  import opened FormatDoc
  import opened FormatLines
  import opened FormatRescan
  import opened FormatAgree
  import opened FormatTokens
  import TomlStrings

  // ----- Keys -----

  /** A bare word: characters of bare keys, each joined to the next. */
  predicate IsWord(part: seq<Token>) {
    && part != []
    && forall i | 0 <= i < |part| :: part[i].Mark? && IsBareChar(part[i].c) && (i + 1 < |part| ==> part[i].joined)
  }

  function Chars(part: seq<Token>): string
    requires forall t | t in part :: t.Mark?
  {
    if part == [] then "" else [part[0].c] + Chars(part[1..])
  }

  /** One part of a dotted key: a string or a bare word. */
  function PartOf(part: seq<Token>): Option<string> {
    if |part| == 1 && part[0].Text? then if part[0].valid then Some(part[0].content) else None
    else if IsWord(part) then Some(Chars(part))
    else None
  }

  predicate IsDot(t: Token) {
    t.Mark? && t.c == '.'
  }

  /** The parts between the dots. */
  function Parts(tokens: seq<Token>): (parts: seq<seq<Token>>)
    ensures parts != []
  {
    if tokens == [] then [[]]
    else
      var rest := Parts(tokens[1..]);
      if IsDot(tokens[0]) then [[]] + rest else [[tokens[0]] + rest[0]] + rest[1..]
  }

  function PathOfParts(parts: seq<seq<Token>>): (path: Option<seq<string>>)
    ensures path.Some? ==> |path.value| == |parts|
  {
    if parts == [] then Some([])
    else
      var head, rest := PartOf(parts[0]), PathOfParts(parts[1..]);
      if head.Some? && rest.Some? then Some([head.value] + rest.value) else None
  }

  /** The path of a dotted key. */
  function PathOf(tokens: seq<Token>): (path: Option<seq<string>>)
    ensures path.Some? ==> path.value != []
  {
    PathOfParts(Parts(tokens))
  }

  // ----- Headers -----

  datatype HeaderLine = HeaderLine(isArray: bool, path: seq<string>)

  predicate IsCloser(t: Token) {
    t.Mark? && t.c == ']'
  }

  /** How many tokens stand in front of the first closing bracket. */
  function BeforeCloser(tokens: seq<Token>): (n: nat)
    ensures n <= |tokens| && (n < |tokens| ==> IsCloser(tokens[n])) && forall i | 0 <= i < n :: !IsCloser(tokens[i])
  {
    if tokens == [] || IsCloser(tokens[0]) then 0 else 1 + BeforeCloser(tokens[1..])
  }

  /** `n` closing brackets, and at most a comment behind them. */
  predicate Closes(tokens: seq<Token>, n: nat) {
    && n <= |tokens| <= n + 1
    && (forall i | 0 <= i < n :: IsCloser(tokens[i]))
    && (|tokens| == n + 1 ==> tokens[n].Note?)
  }

  /** The path between the brackets, when the tokens behind the opening ones are read. */
  function PathUpToCloser(tokens: seq<Token>, n: nat): Option<seq<string>> {
    var k := BeforeCloser(tokens);
    if Closes(tokens[k..], n) then PathOf(tokens[..k]) else None
  }

  /** What a header line declares. */
  function ReadHeader(line: string): (h: Option<HeaderLine>)
    ensures h.Some? ==> h.value.path != []
  {
    var t := Trim(line);
    if t == "" || t[0] != '[' then None
    else
      var n := |Opening(t)|;
      match PathUpToCloser(Read(t[n..], Outside), n)
      case None => None
      case Some(path) => Some(HeaderLine(IsArrayHeader(t), path))
  }

  // ----- Key/values -----

  /**
   The tokens of a key/value construct's value: those of its first line from the separator
   on, and those of its other lines.
   */
  function ValueTokens(lines: seq<string>): seq<seq<Token>>
    requires lines != [] && TomlLine(lines[0], 0, Outside).eq >= 0
  {
    var scan := TomlLine(lines[0], 0, Outside);
    TomlColumns(lines[0]);
    [Read(lines[0][scan.eq..], Outside)] + ReadRest(lines[1..], scan.depth, scan.multiline)
  }

  function KeyTokens(lines: seq<string>): seq<Token>
    requires lines != [] && TomlLine(lines[0], 0, Outside).eq >= 0
  {
    TomlColumns(lines[0]);
    Read(lines[0][..TomlLine(lines[0], 0, Outside).eq], Outside)
  }

  /** What a construct says: the path of its key, and the tokens of its value. */
  datatype Statement = Statement(path: seq<string>, value: seq<seq<Token>>)

  function ReadStatement(lines: seq<string>): (s: Option<Statement>)
    ensures s.Some? ==> s.value.path != []
  {
    if lines == [] || TomlLine(lines[0], 0, Outside).eq < 0 then None
    else
      match PathOf(KeyTokens(lines))
      case None => None
      case Some(path) => Some(Statement(path, ValueTokens(lines)))
  }

  // ----- Bare words -----

  /** The tokens of a bare word; the last one is joined to what follows if that is a dot. */
  function Marks(w: string, joined: bool): seq<Token> {
    seq(|w|, i requires 0 <= i < |w| => Mark(w[i], i + 1 < |w| || joined))
  }

  lemma BareIsPlain(c: char)
    requires IsBareChar(c)
    ensures !IsSpace(c) && !IsQuote(c) && c != '#' && IsWordChar(c) && c != '.' && c != ']'
  {
  }

  lemma {:induction false} ReadWord(w: string, rest: string)
    requires forall c | c in w :: IsBareChar(c)
    ensures Read(w + rest, Outside) == Marks(w, rest != "" && IsWordChar(rest[0])) + Read(rest, Outside)
  {
    hide Read, IsBareChar, IsSpace, IsWordChar, Marks;
    var joined := rest != "" && IsWordChar(rest[0]);
    if w == "" {
      assert w + rest == rest;
      NoMarks(joined);
    } else {
      var s := w + rest;
      assert w[0] in w && s[0] == w[0] && s[1..] == w[1..] + rest;
      BareIsPlain(w[0]);
      PlainRead(s);
      ReadWord(w[1..], rest);
      assert |w| > 1 ==> s[1] == w[1] && w[1] in w;
      if |w| > 1 {
        BareIsPlain(w[1]);
      } else if rest != "" {
        assert s[1] == rest[0];
      }
      MarksStep(w, joined);
    }
  }

  lemma NoMarks(joined: bool)
    ensures Marks("", joined) == []
  {
  }

  lemma MarksStep(w: string, joined: bool)
    requires w != ""
    ensures Marks(w, joined) == [Mark(w[0], |w| > 1 || joined)] + Marks(w[1..], joined)
  {
  }

  lemma {:induction false} MarksAreWord(w: string, joined: bool)
    requires IsBare(w)
    ensures IsWord(Marks(w, joined)) && Chars(Marks(w, joined)) == w
    ensures forall t | t in Marks(w, joined) :: !IsDot(t) && !IsCloser(t)
  {
    hide IsBareChar;
    forall i | 0 <= i < |w| ensures IsBareChar(w[i]) && w[i] != '.' && w[i] != ']' {
      assert w[i] in w;
      BareIsPlain(w[i]);
    }
    CharsOfMarks(w, joined);
  }

  lemma {:induction false} CharsOfMarks(w: string, joined: bool)
    ensures Chars(Marks(w, joined)) == w
  {
    if w != "" {
      CharsOfMarks(w[1..], joined);
      assert Marks(w, joined)[1..] == Marks(w[1..], joined);
    }
  }

  lemma {:induction false} NoDotOnePart(tokens: seq<Token>)
    requires forall t | t in tokens :: !IsDot(t)
    ensures Parts(tokens) == [tokens]
  {
    if tokens != [] {
      assert tokens[0] in tokens;
      NoDotOnePart(tokens[1..]);
      assert [tokens[0]] + tokens[1..] == tokens;
    }
  }

  lemma OnePart(part: seq<Token>)
    requires PartOf(part).Some? && forall t | t in part :: !IsDot(t)
    ensures PathOf(part) == Some([PartOf(part).value])
  {
    hide PartOf;
    NoDotOnePart(part);
    assert [part][1..] == [];
    assert PathOfParts([]) == Some([]);
    assert [PartOf(part).value] + [] == [PartOf(part).value];
  }

  lemma WordPath(w: string, joined: bool)
    requires IsBare(w)
    ensures PathOf(Marks(w, joined)) == Some([w])
  {
    hide IsWord, Chars;
    MarksAreWord(w, joined);
    assert !Marks(w, joined)[0].Text?;
    OnePart(Marks(w, joined));
  }

  /** A bare key names the same path with and without quotes. */
  lemma SameKeyPath(k: string, raw: string)
    requires SameKey(k, raw)
    ensures PathOf(Read(k, Outside)) == PathOf(Read(raw, Outside))
  {
    hide Read, IsBare;
    if Read(k, Outside) != Read(raw, Outside) {
      assert k + "" == k;
      BareChars(k);
      ReadWord(k, "");
      NothingRead(Outside);
      WordPath(k, false);
      assert Marks(k, false) + [] == Marks(k, false);
      OnePart([Text(k, true)]);
    }
  }

  // ----- Rewritten constructs say the same -----

  /** Where TOML finds the separator of a rewritten line. */
  lemma RewrittenEq(raw: string)
    requires TidyFirstLine(raw) && '\r' !in raw && FirstAgrees(raw)
    ensures var l, k := FirstLine(raw), KeyOf(raw);
      TomlLine(l, 0, Outside).eq == |k| + 1 && |k| + 1 < |l| && l[..|k| + 1] == k + " "
  {
    hide Walk, NormaliseKey, NormalizeQuotes, Tidy, ValueText, RstripWs, Assembled, KeyOf, FirstLine;
    var s := ScanLine(raw, 0, Outside);
    ScanColumns(raw);
    FirstStable(raw);
    FirstLineShape(raw);
    var v := NormalizeQuotes(ValueText(raw, s.eq, s.comment, s.multiline != Outside));
    AssembledKey(KeyOf(raw), v, if s.comment >= 0 then " " + RstripWs(raw[s.comment..]) else "");
  }

  lemma AssembledKey(k: string, v: string, c: string)
    ensures |k| + 1 < |Assembled(k, v, c)| && Assembled(k, v, c)[..|k| + 1] == k + " "
  {
  }

  lemma ReadWithSpace(k: string)
    requires Walk(k, 0, TOML) == TOML
    ensures Read(k + " ", Outside) == Read(k, Outside)
  {
    hide Walk, Read, IsSpace;
    SpaceIsSpace();
    SpaceIsApart(' ');
    ReadAppend(k, " ", 0, TOML);
    ReadOnlySpace(" ");
    assert Read(k, Outside) + [] == Read(k, Outside);
  }

  /** A rewritten key/value construct states what the source's construct states. */
  lemma StatementKept(lines: seq<string>, line: nat)
    requires lines != [] && PlainLines(lines) && TomlLine(lines[0], 0, Outside).eq >= 0
    requires ConsumeKv(lines, line).Ok? && TidyKv(lines) && ConstructAgrees(lines)
    ensures ReadStatement(ConsumeKv(lines, line).value.lines) == ReadStatement(lines)
  {
    hide Walk, Read, ConsumeKv, Continue, FirstLine, KeyOf, TidyFirstLine, TidyRest, ReadRest, SameKey, PathOf, ScanLine, TomlLine, RestAgrees;
    var c, raw := ConsumeKv(lines, line).value, lines[0];
    var scan := TomlLine(raw, 0, Outside);
    TomlColumns(raw);
    ConstructKept(lines, line);
    ConsumeShape(lines, line);
    var l := c.lines[0];
    assert l == FirstLine(raw) && c.key == KeyOf(raw);
    RewrittenEq(raw);
    FirstStable(raw);
    ReadWithSpace(c.key);
    SameKeyPath(c.key, raw[..scan.eq]);
    SplitAtEq(l);
    SameTail(Read(c.key, Outside), Read(l[|c.key| + 1..], Outside), Read(raw[scan.eq..], Outside));
  }

  lemma SplitAtEq(l: string)
    requires TomlLine(l, 0, Outside).eq >= 0
    ensures var eq := TomlLine(l, 0, Outside).eq;
      eq < |l| && Read(l, Outside) == Read(l[..eq], Outside) + Read(l[eq..], Outside)
  {
    hide Walk, Read;
    var eq := TomlLine(l, 0, Outside).eq;
    ReadAtEq(l);
    SeparatorAt(l, UpToFive);
    EqualsRead(l[eq..]);
    assert l[eq..][1..] == l[eq + 1..];
  }

  lemma SameTail(a: seq<Token>, b: seq<Token>, c: seq<Token>)
    requires a + b == a + c
    ensures b == c
  {
    assert (a + b)[|a|..] == b && (a + c)[|a|..] == c;
  }

  // ----- Lines that end between tokens -----

  predicate Settled(a: string) {
    Walk(a, 0, TOML).clean && Walk(a, 0, TOML).multiline == Outside
  }

  lemma SettledRead(a: string, r: string)
    requires Settled(a) && Apart(r)
    ensures Read(a + r, Outside) == Read(a, Outside) + Read(r, Outside)
  {
    hide Walk, Read, Apart;
    ReadAppend(a, r, 0, TOML);
  }

  lemma SettledTrim(a: string)
    requires Settled(a)
    ensures Settled(Trim(a)) && Read(Trim(a), Outside) == Read(a, Outside)
  {
    hide Walk, Read, Trim, AllSpace, IsSpace;
    var w1, w2 := TrimParts(a);
    var t := Trim(a);
    Regroup(w1, t, w2);
    WalkLeadingSpace(w1, t + w2, 0, TOML);
    WalkShift(t + w2, |w1|, TOML, 0, TOML);
    WalkTrailingSpace(t, w2, 0, TOML);
    ReadSpace(w1, t + w2);
    SpacesApart(w2);
    SettledRead(t, w2);
    ReadOnlySpace(w2);
    assert Read(t, Outside) + [] == Read(t, Outside);
  }

  lemma PeelSpace(a: string, c: char)
    requires Settled(a + [c]) && IsSpace(c)
    ensures Settled(a) && Read(a, Outside) == Read(a + [c], Outside)
  {
    hide Walk, Read, IsSpace;
    assert AllSpace([c]);
    WalkTrailingSpace(a, [c], 0, TOML);
    SpacesApart([c]);
    SettledRead(a, [c]);
    ReadOnlySpace([c]);
    assert Read(a, Outside) + [] == Read(a, Outside);
  }

  /** Only blanks have no tokens. */
  lemma {:induction false} ReadNothing(s: string, m: Multiline)
    requires s != "" && Read(s, m) == []
    ensures IsSpace(s[|s| - 1])
    decreases |s|
  {
    hide StepAt, Read, IsSpace;
    ReadStopped(s, m);
    var x := StepAt(s, 0, In(m));
    ReadStep(s, m);
    NoToken(s, m);
    if s[x.n..] != "" {
      ReadNothing(s[x.n..], x.st.multiline);
    }
  }

  lemma NoToken(s: string, m: Multiline)
    requires s != "" && TokenAt(s, m) == []
    ensures IsSpace(s[0]) && (StepAt(s, 0, In(m)).Go? ==> StepAt(s, 0, In(m)).n == 1)
  {
  }

  lemma ReadStopped(s: string, m: Multiline)
    requires s != ""
    ensures StepAt(s, 0, In(m)).Stop? ==> s[0] == '#' && m == Outside && Read(s, m) == [Note(StripBlanks(s))]
  {
  }

  lemma MarkAlone(s: string, m: Multiline)
    requires s != "" && TokenAt(s, m) != [] && IsCloser(TokenAt(s, m)[0])
    ensures m == Outside && s[0] == ']' && StepAt(s, 0, In(m)).Go? && StepAt(s, 0, In(m)).n == 1
  {
  }

  /** A line whose last token is a closing bracket and whose last character is no blank ends with it. */
  lemma {:induction false} LastCloser(s: string, pos: nat, st: Walked)
    requires st.clean && st.closing == UpToFive && s != "" && !IsSpace(s[|s| - 1])
    requires var r := Read(s, st.multiline); r != [] && IsCloser(r[|r| - 1])
    ensures var w := Walk(s[..|s| - 1], pos, st); s[|s| - 1] == ']' && w.clean && w.multiline == Outside
    decreases |s|
  {
    hide StepAt, Read, TokenAt, IsSpace;
    var m := st.multiline;
    StepKind(s, pos, st);
    StepColumns(s, pos, st);
    ReadStopped(s, m);
    ReadStep(s, m);
    var x := StepAt(s, pos, st);
    var rest := s[x.n..];
    OneToken(s, m);
    if rest == "" {
      NothingRead(x.st.multiline);
      assert Read(s, m) == TokenAt(s, m);
      MarkAlone(s, m);
      assert s[..|s| - 1] == "";
    } else {
      if Read(rest, x.st.multiline) == [] {
        ReadNothing(rest, x.st.multiline);
        assert false;
      }
      LastCloser(rest, pos + x.n, x.st);
      var a := s[..|s| - 1];
      assert a + "]" == s && a[x.n..] == rest[..|rest| - 1];
      if a != "" {
        StepLocal(a, "]", pos, st);
      }
    }
  }

  lemma OneToken(s: string, m: Multiline)
    requires s != ""
    ensures |TokenAt(s, m)| <= 1
  {
  }

  lemma PeelCloser(a: string)
    requires a != "" && !IsSpace(a[|a| - 1])
    requires var r := Read(a, Outside); r != [] && IsCloser(r[|r| - 1])
    ensures var b := a[..|a| - 1];
      a == b + "]" && Settled(b) && Read(a, Outside) == Read(b, Outside) + [Mark(']', false)]
  {
    hide Walk, Read, IsSpace;
    LastCloser(a, 0, TOML);
    var b := a[..|a| - 1];
    ClosersRead();
    SettledRead(b, "]");
  }

  lemma ClosersRead()
    ensures Apart("]") && Apart("]]")
    ensures Read("]", Outside) == [Mark(']', false)] && Read("]]", Outside) == [Mark(']', false), Mark(']', false)]
  {
    assert "]]"[1..] == "]" && "]"[1..] == "";
    PlainRead("]");
    PlainRead("]]");
  }

  // ----- Where the comment starts -----

  /** Where the comment of a line starts, or the line's length if it has none. */
  function NoteAt(s: string, m: Multiline): (k: nat)
    ensures k <= |s|
    decreases |s|
  {
    if s == "" then 0
    else
      match StepAt(s, 0, In(m))
      case Stop(_) => 0
      case Go(n, st) => n + NoteAt(s[n..], st.multiline)
  }

  lemma {:induction false} NoteWalk(s: string, pos: nat, st: Walked)
    requires st.clean && st.closing == UpToFive && NoteAt(s, st.multiline) < |s|
    ensures var k := NoteAt(s, st.multiline);
      s[k] == '#' && Walk(s[..k], pos, st).clean && Walk(s[..k], pos, st).multiline == Outside
    decreases |s|
  {
    hide StepAt, Walk;
    var m, k := st.multiline, NoteAt(s, st.multiline);
    StepKind(s, pos, st);
    StepColumns(s, pos, st);
    ReadStopped(s, m);
    var x := StepAt(s, pos, st);
    if x.Stop? {
      assert s[..k] == "";
      WalkNothing(pos, st);
    } else {
      NoteWalk(s[x.n..], pos + x.n, x.st);
      var a, r := s[..k], s[k..];
      assert a + r == s && a[x.n..] == s[x.n..][..k - x.n];
      StepLocal(a, r, pos, st);
      WalkGo(a, pos, st, x.n, x.st);
    }
  }

  lemma {:induction false} NoNotes(s: string, m: Multiline)
    requires NoteAt(s, m) == |s|
    ensures forall t | t in Read(s, m) :: !t.Note?
    decreases |s|
  {
    hide StepAt, TokenAt;
    if s != "" {
      ReadStep(s, m);
      StepsAreNoNotes(s, m);
      var x := StepAt(s, 0, In(m));
      NoNotes(s[x.n..], x.st.multiline);
    } else {
      NothingRead(m);
    }
  }

  lemma StepsAreNoNotes(s: string, m: Multiline)
    requires s != "" && StepAt(s, 0, In(m)).Go?
    ensures forall t | t in TokenAt(s, m) :: !t.Note?
  {
  }

  /** A line with a comment is the line up to it, and the comment. */
  lemma NoteSplit(s: string)
    requires NoteAt(s, Outside) < |s|
    ensures var k := NoteAt(s, Outside);
      s[k] == '#' && Settled(s[..k]) && Read(s, Outside) == Read(s[..k], Outside) + [Note(StripBlanks(s[k..]))]
  {
    hide Walk, Read, StepAt;
    var k := NoteAt(s, Outside);
    NoteWalk(s, 0, TOML);
    CutIn(s, k);
    NoteRead(s[k..]);
    SettledRead(s[..k], s[k..]);
  }

  lemma NoteRead(c: string)
    requires c != "" && c[0] == '#'
    ensures Apart(c) && Read(c, Outside) == [Note(StripBlanks(c))]
  {
  }

  // ----- Rewritten headers -----

  /** `tokens` are `p`, `j` closing brackets, and a comment if `noted`. */
  predicate Shape(tokens: seq<Token>, p: seq<Token>, j: nat, noted: bool) {
    && |tokens| == |p| + j + (if noted then 1 else 0)
    && p <= tokens && (forall t | t in p :: !IsCloser(t))
    && (forall i | |p| <= i < |p| + j :: IsCloser(tokens[i]))
    && (noted ==> tokens[|p| + j].Note?)
  }

  lemma ShapePath(tokens: seq<Token>, p: seq<Token>, j: nat, noted: bool, n: nat)
    requires Shape(tokens, p, j, noted) && j >= 1 && n >= 1
    ensures PathUpToCloser(tokens, n) == if j == n then PathOf(p) else None
  {
    hide PathOf;
    var k := BeforeCloser(tokens);
    assert IsCloser(tokens[|p|]);
    assert forall i | 0 <= i < |p| :: tokens[i] == p[i];
    assert k == |p| && tokens[..k] == p;
    var rest := tokens[k..];
    if j > n {
      assert |rest| == n + 1 ==> IsCloser(tokens[k + n]);
    } else if j < n && n <= |rest| {
      assert tokens[k + j].Note? && !IsCloser(rest[j]);
    }
  }

  lemma ShapeOf(tokens: seq<Token>, n: nat) returns (p: seq<Token>, noted: bool)
    requires PathUpToCloser(tokens, n).Some?
    ensures Shape(tokens, p, n, noted) && PathUpToCloser(tokens, n) == PathOf(p) && p != []
  {
    hide PathOf;
    var k := BeforeCloser(tokens);
    p, noted := tokens[..k], |tokens| == k + n + 1;
    NoPath();
    assert forall i | k <= i < k + n :: tokens[i] == tokens[k..][i - k];
  }

  lemma NoPath()
    ensures PathOf([]) == None
  {
    assert Parts([]) == [[]] && PartOf([]) == None;
  }

  lemma MoreClosers(a: string, p: seq<Token>, j: nat, n: nat, close: string)
    requires Settled(a) && Shape(Read(a, Outside), p, j, false) && 1 <= n <= 2
    requires close == if n == 1 then "]" else "]]"
    ensures Shape(Read(Trim(a) + close, Outside), p, j + n, false)
  {
    hide Settled, Read, Trim;
    ClosersRead();
    SettledTrim(a);
    SettledRead(Trim(a), close);
  }

  /** What the last characters of a text that ends with closing brackets are. */
  lemma PeelLast(a: string, p: seq<Token>, j: nat)
    requires a != "" && Settled(a) && Shape(Read(a, Outside), p, j, false) && j >= 1
    ensures var b, c := a[..|a| - 1], a[|a| - 1];
      && Settled(b) && (IsSpace(c) || c == ']')
      && Shape(Read(b, Outside), p, if IsSpace(c) then j else j - 1, false)
  {
    hide Settled, Read, IsSpace;
    var b, c := a[..|a| - 1], a[|a| - 1];
    assert b + [c] == a;
    if IsSpace(c) {
      PeelSpace(b, c);
    } else {
      PeelCloser(a);
      ShapePeel(Read(b, Outside), Mark(']', false), p, j);
    }
  }

  /** The header's last characters, which the rewriting replaces, are closing brackets or the end of a long comment. */
  predicate HeaderSafe(trimmed: string) {
    var n := |Opening(trimmed)|;
    n <= |trimmed| &&
    var inner := trimmed[n..];
    var k := NoteAt(inner, Outside);
    if k < |inner| then |inner| - k > n else ClosesLast(trimmed)
  }

  /** What `NormaliseHeader` puts between the brackets. */
  function Inner(trimmed: string): string {
    var n := |Opening(trimmed)|;
    Middle(trimmed, n, n)
  }

  lemma RewrittenHeader(trimmed: string)
    requires trimmed != "" && trimmed[0] == '[' && HeaderPlain(trimmed)
    ensures var l, n := NormaliseHeader(trimmed), |Opening(trimmed)|;
      && n <= |l| && Trim(l) == l && l != "" && l[0] == '['
      && IsArrayHeader(l) == IsArrayHeader(trimmed) && Opening(l) == Opening(trimmed)
      && l[n..] == Trim(Inner(trimmed)) + Closing(trimmed)
  {
    hide Trim, Middle, IsSpace;
    HeaderText(trimmed);
    var l, name := NormaliseHeader(trimmed), HeaderName(trimmed);
    if !IsArrayHeader(trimmed) {
      assert l[1] == if name == "" then ']' else name[0];
    }
  }

  /** Cutting `n` characters off the end, where there is no comment. */
  lemma InnerPlain(s: string, p: seq<Token>, n: nat) returns (j: nat)
    requires 1 <= n <= 2 && s != "" && !IsSpace(s[|s| - 1]) && Shape(Read(s, Outside), p, n, false)
    ensures |s| >= n && Settled(s[..|s| - n]) && j < n && Shape(Read(s[..|s| - n], Outside), p, j, false)
    ensures j == 0 <==> s[|s| - n..] == if n == 1 then "]" else "]]"
  {
    hide Settled, Read, IsSpace;
    PeelCloser(s);
    var b := s[..|s| - 1];
    j := 0;
    ShapePeel(Read(b, Outside), Mark(']', false), p, n);
    if n == 2 {
      ShapeNonempty(b, p, 1);
      PeelLast(b, p, 1);
      assert b[..|b| - 1] == s[..|s| - 2];
      BlankIsNoCloser(b[|b| - 1]);
      assert s[|s| - 2..] == [b[|b| - 1]] + "]";
      if IsSpace(b[|b| - 1]) { j := 1; }
    } else {
      assert s[|s| - 1..] == "]";
    }
  }

  lemma BlankIsNoCloser(c: char)
    ensures IsSpace(c) ==> c != ']' && c != '#'
  {
  }

  lemma PlainHeaderRead(trimmed: string, p: seq<Token>)
    requires trimmed != "" && trimmed[0] == '[' && !IsSpace(trimmed[|trimmed| - 1]) && HeaderPlain(trimmed)
    requires var n := |Opening(trimmed)|; n <= |trimmed| && Shape(Read(trimmed[n..], Outside), p, n, false)
    ensures var n := |Opening(trimmed)|;
      PathUpToCloser(Read(NormaliseHeader(trimmed)[n..], Outside), n) == if ClosesLast(trimmed) then PathOf(p) else None
  {
    hide Settled, Read, IsSpace, Trim, HeaderPlain, NormaliseHeader, PathUpToCloser, PathOf, Shape;
    var n := |Opening(trimmed)|;
    var s := trimmed[n..];
    ShapeNonempty(s, p, n);
    var j := InnerPlain(s, p, n);
    RewrittenHeader(trimmed);
    var a := s[..|s| - n];
    assert a == Inner(trimmed) && s[|s| - n..] == trimmed[|trimmed| - n..];
    MoreClosers(a, p, j, n, Closing(trimmed));
    ShapePath(Read(Trim(a) + Closing(trimmed), Outside), p, j + n, false, n);
  }

  lemma ShapeNonempty(s: string, p: seq<Token>, n: nat)
    requires n >= 1 && Shape(Read(s, Outside), p, n, false)
    ensures s != ""
  {
    NothingRead(Outside);
  }

  /** The white space around a text that ends in a comment, and what the comment becomes. */
  lemma TrimNoted(x: string, c: string, close: string)
    requires Settled(x) && c != "" && c[0] == '#'
    ensures exists note :: Read(Trim(x + c) + close, Outside) == Read(x, Outside) + [Note(note)]
  {
    hide Settled, Read, Trim, AllSpace, IsSpace;
    var w1, w2 := TrimParts(x + c);
    var t := Trim(x + c);
    BlankIsNoCloser('#');
    assert (x + c)[|x|] == '#';
    NotInBlanks(w1, t, w2, |x|);
    var y, d := t[..|x| - |w1|], t[|x| - |w1|..] + close;
    assert t + close == y + d && d[0] == '#';
    assert w1 + y == (w1 + t + w2)[..|x|] == x;
    ReadSpace(w1, y + d);
    Regroup(w1, y, d);
    NoteRead(d);
    SettledRead(x, d);
  }

  lemma NotInBlanks(w1: string, t: string, w2: string, i: nat)
    requires AllSpace(w1) && AllSpace(w2) && i < |w1 + t + w2| && !IsSpace((w1 + t + w2)[i])
    ensures |w1| <= i < |w1| + |t|
  {
    var s := w1 + t + w2;
    assert forall j | 0 <= j < |w1| :: s[j] == w1[j];
    assert forall j | |w1| + |t| <= j < |s| :: s[j] == w2[j - |w1| - |t|];
  }

  lemma NotedShape(x: seq<Token>, p: seq<Token>, n: nat, note: string)
    ensures Shape(x + [Note(note)], p, n, true) <==> Shape(x, p, n, false)
  {
    assert (x + [Note(note)])[..|x|] == x;
    assert forall i | 0 <= i < |x| :: (x + [Note(note)])[i] == x[i];
  }

  lemma ShapePeel(x: seq<Token>, t: Token, p: seq<Token>, j: nat)
    requires Shape(x + [t], p, j, false) && j >= 1
    ensures Shape(x, p, j - 1, false)
  {
    assert (x + [t])[..|x|] == x;
    assert forall i | 0 <= i < |x| :: (x + [t])[i] == x[i];
  }

  lemma NotedHeaderRead(trimmed: string, p: seq<Token>)
    requires trimmed != "" && trimmed[0] == '[' && HeaderPlain(trimmed)
    requires |Opening(trimmed)| <= |trimmed|
    requires var n := |Opening(trimmed)|; var s := trimmed[n..];
      NoteAt(s, Outside) < |s| && Shape(Read(s, Outside), p, n, true)
    ensures var n := |Opening(trimmed)|;
      PathUpToCloser(Read(NormaliseHeader(trimmed)[n..], Outside), n) == if HeaderSafe(trimmed) then PathOf(p) else None
  {
    hide *;
    var n, close := |Opening(trimmed)|, Closing(trimmed);
    var s := trimmed[n..];
    var k := NoteAt(s, Outside);
    var x, c := s[..k], s[k..];
    OpeningFits(trimmed);
    NoteSplit(s);
    NotedShape(Read(x, Outside), p, n, StripBlanks(c));
    ShapeNonempty(x, p, n);
    RewrittenHeader(trimmed);
    NotedInner(trimmed, k);
    if |c| > n {
      LongComment(x, c[..|c| - n], close, p, n);
    } else {
      ShortComment(x, |c|, close, p, n);
    }
  }

  /** What of the name and the comment stays between the brackets. */
  lemma NotedInner(trimmed: string, k: nat)
    requires trimmed != "" && 0 < k && |Opening(trimmed)| + k < |trimmed|
    requires k == NoteAt(trimmed[|Opening(trimmed)|..], Outside)
    ensures var n, s := |Opening(trimmed)|, trimmed[|Opening(trimmed)|..];
      && Closing(trimmed) == (if n == 1 then "]" else "]]")
      && HeaderSafe(trimmed) == (|s[k..]| > n)
      && Inner(trimmed) == if |s[k..]| > n then s[..k] + s[k..][..|s[k..]| - n] else s[..k][..k + |s[k..]| - n]
  {
    hide NoteAt;
    var n := |Opening(trimmed)|;
    var s := trimmed[n..];
    OpeningFits(trimmed);
    assert Inner(trimmed) == s[..|s| - n];
  }

  lemma LongComment(x: string, c: string, close: string, p: seq<Token>, n: nat)
    requires Settled(x) && Shape(Read(x, Outside), p, n, false) && c != "" && c[0] == '#' && n >= 1
    ensures PathUpToCloser(Read(Trim(x + c) + close, Outside), n) == PathOf(p)
  {
    hide Settled, Read, Trim, PathUpToCloser, PathOf, Shape;
    TrimNoted(x, c, close);
    var read := Read(Trim(x + c) + close, Outside);
    var note :| read == Read(x, Outside) + [Note(note)];
    NotedShape(Read(x, Outside), p, n, note);
    ShapePath(read, p, n, true, n);
  }

  /** A comment of `length` characters is cut off, and closing brackets are left over. */
  lemma ShortComment(x: string, length: nat, close: string, p: seq<Token>, n: nat)
    requires x != "" && Settled(x) && Shape(Read(x, Outside), p, n, false) && 1 <= length <= n <= 2
    requires close == if n == 1 then "]" else "]]"
    ensures PathUpToCloser(Read(Trim(x[..|x| + length - n]) + close, Outside), n) == None
  {
    hide Settled, Read, IsSpace, Trim, PathUpToCloser, PathOf, Shape;
    var a, j := x[..|x| + length - n], n;
    if length < n {
      PeelLast(x, p, n);
      BlankIsNoCloser(x[|x| - 1]);
      if !IsSpace(x[|x| - 1]) { j := n - 1; }
    } else {
      assert a == x;
    }
    MoreClosers(a, p, j, n, close);
    ShapePath(Read(Trim(a) + close, Outside), p, j + n, false, n);
  }

  /**
   A rewritten header declares what the source's header declares if and only if the
   rewriting cuts no closing bracket and not the whole comment; otherwise TOML rejects it.
   */
  lemma HeaderRead(line: string)
    requires ReadHeader(line).Some? && HeaderPlain(Trim(line))
    ensures ReadHeader(NormaliseHeader(Trim(line))) == if HeaderSafe(Trim(line)) then ReadHeader(line) else None
  {
    hide Settled, Read, IsSpace, Trim, HeaderPlain, NormaliseHeader, PathUpToCloser, PathOf, Shape;
    var t := Trim(line);
    var n := |Opening(t)|;
    assert n <= |t| by { OpeningFits(t); }
    var s := t[n..];
    var p, noted := ShapeOf(Read(s, Outside), n);
    RewrittenHeader(t);
    if NoteAt(s, Outside) < |s| {
      NoteSplit(s);
      NotedLast(Read(s, Outside), p, n, noted);
      NotedHeaderRead(t, p);
    } else {
      NoNotes(s, Outside);
      NotedLast(Read(s, Outside), p, n, noted);
      PlainHeaderRead(t, p);
    }
  }

  lemma OpeningFits(t: string)
    requires t != ""
    ensures |Opening(t)| <= |t| && 1 <= |Opening(t)| <= 2
  {
  }

  /** The last token tells whether there is a comment. */
  lemma NotedLast(tokens: seq<Token>, p: seq<Token>, n: nat, noted: bool)
    requires Shape(tokens, p, n, noted) && n >= 1
    ensures tokens != [] && noted == tokens[|tokens| - 1].Note? && (noted ==> tokens[|tokens| - 1] in tokens)
  {
    assert IsCloser(tokens[|p| + n - 1]);
  }

  // ----- Headers that start with a bare word -----

  lemma WordTokens(w: string, rest: string)
    requires IsBare(w) && rest != "" && !IsQuote(rest[0]) && rest[0] != '#'
    ensures Read(w + rest, Outside) == Marks(w, IsWordChar(rest[0])) + Read(rest, Outside)
  {
    hide Read, IsBareChar, IsWordChar;
    ReadWord(w, rest);
  }

  /** A bare word alone between the brackets is the whole path. */
  lemma WordHeader(t: string, w: string, rest: string, noted: bool)
    requires Trim(t) == t && t == Opening(t) + w + rest && IsBare(w)
    requires rest != "" && rest[0] == ']' && Shape(Read(rest, Outside), [], |Opening(t)|, noted)
    ensures t != "" && t[0] == '[' && ReadHeader(t) == Some(HeaderLine(IsArrayHeader(t), [w]))
  {
    hide Read, Shape, IsBare, Trim, PathUpToCloser, PathOf;
    var n := |Opening(t)|;
    WordTokens(w, rest);
    MarksAreWord(w, false);
    assert t[n..] == w + rest;
    ShapeBehind(Marks(w, false), Read(rest, Outside), n, noted);
    ShapePath(Read(t[n..], Outside), Marks(w, false), n, noted, n);
    WordPath(w, false);
  }

  lemma ShapeBehind(p: seq<Token>, r: seq<Token>, n: nat, noted: bool)
    requires Shape(r, [], n, noted) && forall t | t in p :: !IsCloser(t)
    ensures Shape(p + r, p, n, noted)
  {
    assert (p + r)[..|p|] == p;
    assert forall i | 0 <= i < |r| :: (p + r)[|p| + i] == r[i];
  }

  lemma {:induction false} PartsHead(a: seq<Token>, b: seq<Token>)
    requires forall t | t in a :: !IsDot(t)
    ensures Parts(a + b) == [a + Parts(b)[0]] + Parts(b)[1..]
  {
    if a == [] {
      assert a + b == b && a + Parts(b)[0] == Parts(b)[0];
    } else {
      assert a[0] in a && (a + b)[1..] == a[1..] + b;
      PartsHead(a[1..], b);
      assert [a[0]] + (a[1..] + Parts(b)[0]) == a + Parts(b)[0];
    }
  }

  lemma {:induction false} BeforeCloserBehind(a: seq<Token>, b: seq<Token>)
    requires forall t | t in a :: !IsCloser(t)
    ensures BeforeCloser(a + b) == |a| + BeforeCloser(b)
  {
    if a == [] {
      assert a + b == b;
    } else {
      assert a[0] in a && (a + b)[1..] == a[1..] + b;
      BeforeCloserBehind(a[1..], b);
    }
  }

  /** The path behind a bare word is the word and what follows its dot. */
  lemma PathFrom(w: string, joined: bool, rest: seq<Token>)
    requires IsBare(w) && (rest == [] || IsDot(rest[0]))
    ensures PathOf(Marks(w, joined) + rest)
         == if rest == [] then Some([w])
            else match PathOf(rest[1..]) case None => None case Some(path) => Some([w] + path)
  {
    hide IsBare, PartOf;
    var m := Marks(w, joined);
    MarksAreWord(w, joined);
    WordPath(w, joined);
    PartsHead(m, rest);
    assert m + [] == m;
    WordPart(w, joined);
    if rest == [] {
      assert m + rest == m;
    } else {
      assert Parts(m + rest) == [m] + Parts(rest[1..]);
      assert ([m] + Parts(rest[1..]))[1..] == Parts(rest[1..]);
    }
  }

  lemma WordPart(w: string, joined: bool)
    requires IsBare(w)
    ensures PartOf(Marks(w, joined)) == Some(w)
  {
    hide IsWord, Chars;
    MarksAreWord(w, joined);
    assert !Marks(w, joined)[0].Text?;
  }

  /** A bare word up to a dot or a closing bracket is the first key of whatever path is read. */
  lemma BareFirst(w: string, rest: string, n: nat)
    requires IsBare(w) && rest != "" && (rest[0] == '.' || rest[0] == ']')
    requires PathUpToCloser(Read(w + rest, Outside), n).Some?
    ensures PathUpToCloser(Read(w + rest, Outside), n).value[0] == w
  {
    hide Read, IsBare, PathOf;
    WordTokens(w, rest);
    MarksAreWord(w, IsWordChar(rest[0]));
    PlainRead(rest);
    var m, r := Marks(w, IsWordChar(rest[0])), Read(rest, Outside);
    BeforeCloserBehind(m, r);
    var k := BeforeCloser(r);
    assert (m + r)[..|m| + k] == m + r[..k];
    FirstIs(rest);
    PathFrom(w, IsWordChar(rest[0]), r[..k]);
  }

  lemma FirstIs(rest: string)
    requires rest != "" && (rest[0] == '.' || rest[0] == ']')
    ensures var r := Read(rest, Outside);
      r != [] && r[..BeforeCloser(r)] == (if rest[0] == ']' then [] else r[..BeforeCloser(r)])
      && (rest[0] == '.' ==> IsDot(r[0]) && BeforeCloser(r) > 0)
  {
    hide Read;
    PlainRead(rest);
    DotIsNoSpace();
  }

  lemma DotIsNoSpace()
    ensures !IsSpace('.') && !IsSpace(']')
  {
  }

  /** The tokens of two bare words with a dot between them, and white space in front of it. */
  lemma TwoWords(v: string, w: string, rest: string) returns (dot: Token)
    requires IsBare(v) && IsBare(w) && rest != "" && rest[0] == ']'
    ensures IsDot(dot) && !IsCloser(dot)
    ensures Read(v + (" " + ("." + (w + rest))), Outside) == Marks(v, false) + ([dot] + Marks(w, false)) + Read(rest, Outside)
  {
    hide Read, IsBare, Marks, IsWordChar;
    var dotted := "." + (w + rest);
    var more := " " + dotted;
    SpaceIsSpace();
    SpaceIsApart(' ');
    CloserIsApart();
    DotIsNoSpace();
    WordTokens(v, more);
    WordTokens(w, rest);
    assert more[1..] == dotted && dotted[1..] == w + rest;
    SpaceRead(more);
    PlainRead(dotted);
    dot := Mark('.', Joined(dotted));
    var a, b, r := Marks(v, false), Marks(w, false), Read(rest, Outside);
    assert a + ([dot] + (b + r)) == a + ([dot] + b) + r;
  }

  lemma TwoWordPath(v: string, w: string, dot: Token)
    requires IsBare(v) && IsBare(w) && IsDot(dot) && !IsCloser(dot)
    ensures var p := Marks(v, false) + ([dot] + Marks(w, false));
      PathOf(p) == Some([v, w]) && forall t | t in p :: !IsCloser(t)
  {
    hide IsBare, Marks, PathOf;
    MarksAreWord(v, false);
    MarksAreWord(w, false);
    assert ([dot] + Marks(w, false))[1..] == Marks(w, false);
    WordPath(w, false);
    PathFrom(v, false, [dot] + Marks(w, false));
    assert [v] + [w] == [v, w];
  }

  lemma TwoWordHeader(t: string, v: string, w: string, rest: string)
    requires Trim(t) == t && t == Opening(t) + v + " ." + w + rest && IsBare(v) && IsBare(w)
    requires rest != "" && rest[0] == ']' && Shape(Read(rest, Outside), [], |Opening(t)|, false)
    ensures t != "" && t[0] == '[' && ReadHeader(t) == Some(HeaderLine(IsArrayHeader(t), [v, w]))
  {
    hide Read, Shape, IsBare, Trim, PathUpToCloser, PathOf, Marks;
    var n := |Opening(t)|;
    var dot := TwoWords(v, w, rest);
    var p, r := Marks(v, false) + ([dot] + Marks(w, false)), Read(rest, Outside);
    TwoWordPath(v, w, dot);
    DottedText(t, v, w, rest);
    ShapeBehind(p, r, n, false);
    ShapePath(p + r, p, n, false, n);
  }

  lemma DottedText(t: string, v: string, w: string, rest: string)
    requires t == Opening(t) + v + " ." + w + rest
    ensures t[|Opening(t)|..] == v + (" " + ("." + (w + rest)))
  {
  }

  lemma CloserIsApart()
    ensures !IsWordChar(']')
  {
  }

  // ----- A line `key = "text"` -----

  function TextLine(w: string, content: string): string {
    w + " = \"" + content + "\""
  }

  /** A bare key with a basic string without escapes says what it looks like. */
  lemma TextStatement(w: string, content: string)
    requires IsBare(w) && content != "" && '"' !in content && '\\' !in content && TomlStrings.NoControls(content)
    ensures ReadStatement([TextLine(w, content)]) == Some(Statement([w], [[Mark('=', false), Text(content, true)]]))
  {
    hide TomlLine, Read, IsBare, PathOf, TextLine, KeyTokens, ValueTokens;
    var l := TextLine(w, content);
    TextScanned(w, content);
    TextCut(w, content);
    ClosedAtOnce(l);
    KeyTokensOfWord(w);
    ValueOfText(content);
  }

  lemma TextCut(w: string, content: string)
    ensures var l := TextLine(w, content);
      |w| + 1 < |l| && l[..|w| + 1] == w + " " && l[|w| + 1..] == "= \"" + content + "\""
  {
  }

  lemma TextScanned(w: string, content: string)
    requires IsBare(w) && '"' !in content && '\\' !in content
    ensures TomlLine(TextLine(w, content), 0, Outside) == AfterEq(w, UpToFive)
  {
    hide Walk, IsBare, BasicString, TokenBefore, StepAt, TextOf, TomlStrings.NoControls;
    var l, b := TextLine(w, content), BasicString(content);
    PlainEscapes(content);
    assert l == Assembled(w, b, "");
    WalkBareKey(w, UpToFive);
    BasicStringText(content, "");
    AssembledWalk(w, b, "", UpToFive);
    TokenStep(b, "", |w| + 3, AfterEq(w, UpToFive));
    TokenWalk(b, |w| + 3, AfterEq(w, UpToFive));
  }

  lemma KeyTokensOfWord(w: string)
    requires IsBare(w)
    ensures PathOf(Read(w + " ", Outside)) == Some([w])
  {
    hide Walk, Read, IsBare, PathOf;
    WalkBareKey(w, UpToFive);
    ReadWithSpace(w);
    BareChars(w);
    ReadWord(w, "");
    NothingRead(Outside);
    assert w + "" == w && Marks(w, false) + [] == Marks(w, false);
    WordPath(w, false);
  }

  lemma ValueOfText(content: string)
    requires '"' !in content && '\\' !in content && TomlStrings.NoControls(content)
    ensures Read("= \"" + content + "\"", Outside) == [Mark('=', false), Text(content, true)]
  {
    hide Read, BasicString, TokenBefore, TextOf, TomlStrings.NoControls, IsSpace;
    var b := BasicString(content);
    PlainEscapes(content);
    var v := " " + b;
    assert "= \"" + content + "\"" == "=" + v;
    EqualsRead("=" + v);
    assert ("=" + v)[1..] == v && v[1..] == b;
    SpaceIsSpace();
    SpaceRead(v);
    BasicStringText(content, "");
    TokenRead(b, "");
    NothingRead(Outside);
    assert b + "" == b;
    assert [Mark('=', false)] + ([Text(content, true)] + []) == [Mark('=', false), Text(content, true)];
  }

  lemma TokenWalk(b: string, pos: nat, st: Walked)
    requires b != "" && StepAt(b + "", pos, st) == Go(|b|, st)
    ensures Walk(b + "", pos, st) == st
  {
    hide StepAt;
    assert b + "" == b && b[|b|..] == "";
  }

  lemma ClosedAtOnce(l: string)
    requires var s := TomlLine(l, 0, Outside); s.eq >= 0 && s.depth == 0 && s.multiline == Outside
    ensures var eq := TomlLine(l, 0, Outside).eq;
      eq < |l| && KeyTokens([l]) == Read(l[..eq], Outside) && ValueTokens([l]) == [Read(l[eq..], Outside)]
  {
    hide Walk, Read;
    TomlColumns(l);
  }

  // ----- A comment that is too short -----

  lemma MiddleParts(a: string, name: string, b: string)
    ensures Middle(a + name + b, |a|, |b|) == name
  {
  }

  lemma SignsAlone()
    ensures Shape(Read("] #", Outside), [], 1, true) && Shape(Read("]]", Outside), [], 2, false)
  {
    hide Read, StripBlanks, IsSpace;
    ClosersRead();
    assert "] #"[1..] == " #" && " #"[1..] == "#";
    DotIsNoSpace();
    PlainRead("] #");
    SpaceIsSpace();
    SpaceRead(" #");
    NoteRead("#");
  }

  lemma SignHeaderText()
    ensures NormaliseHeader("[DOCUMENTATION] #") == "[DOCUMENTATION]]"
  {
    hide Middle, IsSpace, Trim;
    var t, name := "[DOCUMENTATION] #", "DOCUMENTATION] ";
    assert t == "[" + name + "#" && t[1] == 'D';
    MiddleParts("[", name, "#");
    assert name == "DOCUMENTATION]" + " " && "DOCUMENTATION]"[0] == 'D' && "DOCUMENTATION]"[13] == ']';
    TrimmedName();
    assert "[" + "DOCUMENTATION]" + "]" == "[DOCUMENTATION]]";
  }

  lemma TrimmedName()
    ensures Trim("DOCUMENTATION] ") == "DOCUMENTATION]"
  {
    hide TrimEnd;
    var a, s := "DOCUMENTATION]", "DOCUMENTATION] ";
    assert s[..|s| - 1] == a && s[0] == 'D';
    TrimEndOnce(a, s);
  }

  lemma TrimEndOnce(a: string, s: string)
    requires a != "" && !IsSpace(a[|a| - 1]) && s == a + " "
    ensures TrimEnd(s) == a
  {
    assert s[..|s| - 1] == a;
    assert TrimEnd(a) == a;
  }

  /** A sign without a text behind a header: the rewriting puts a second bracket in its place. */
  lemma SignBreaksHeader()
    ensures ReadHeader("[DOCUMENTATION] #") == Some(HeaderLine(false, ["DOCUMENTATION"]))
    ensures NormaliseHeader("[DOCUMENTATION] #") == "[DOCUMENTATION]]" && ReadHeader("[DOCUMENTATION]]") == None
  {
    hide Read, Shape, Trim, NormaliseHeader, PathUpToCloser, PathOf, IsSpace, Marks;
    SignHeaderText();
    SignsAlone();
    var w, s, t := "DOCUMENTATION", "[DOCUMENTATION] #", "[DOCUMENTATION]]";
    assert s == "[" + w + "] #" && t == "[" + w + "]]" && s[1] == 'D' && t[1] == 'D';
    EndsAreNoSpace();
    TrimFixed(s);
    TrimFixed(t);
    WordHeader(s, w, "] #", true);
    WordTokens(w, "]]");
    MarksAreWord(w, false);
    CloserIsApart();
    ShapeBehind(Marks(w, false), Read("]]", Outside), 2, false);
    assert t[1..] == w + "]]";
    ShapePath(Read(t[1..], Outside), Marks(w, false), 2, false, 1);
  }

  lemma EndsAreNoSpace()
    ensures !IsSpace('[') && !IsSpace(']') && !IsSpace('#')
  {
  }
}
