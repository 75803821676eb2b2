/**
 A string that ends in a quote of its own: valid TOML v1.0.0 whose end the scanner does not
 find. Lines on which it agrees with TOML are the subject of FormatAgree.
 */
module FormatQuotes {
  import opened JsText
  import opened Wrappers
  import opened FormatScan
  import opened FormatDoc
  import opened FormatLines
  import opened FormatRescan
  import opened FormatAgree
  import opened FormatTokens
  import opened FormatIdempotence
  import opened TomlLines
  import opened FormatMeaning
  import opened FormatAccepts

  const FOUR_QUOTES := "a=[\"\"\"x\"\"\"\",1]"

  /** The steps up to the closing quotes are those of either rule. */
  lemma UpToQuotes(rule: ClosingRule)
    ensures var inside := Start(rule).(depth := 1, eq := 1, multiline := InBasic);
      Walk(FOUR_QUOTES, 0, Start(rule)) == Walk("\"\"\"\",1]", 7, inside)
  {
    hide Walk, StepAt;
    var st := Start(rule);
    var e, d := st.(eq := 1), st.(eq := 1, depth := 1);
    var s0, s1, s2, s3, s4 :=
      FOUR_QUOTES, "=[\"\"\"x\"\"\"\",1]", "[\"\"\"x\"\"\"\",1]", "\"\"\"x\"\"\"\",1]", "x\"\"\"\",1]";
    assert s0[1..] == s1 && s1[1..] == s2 && s2[1..] == s3 && s3[3..] == s4 && s4[1..] == "\"\"\"\",1]";
    QuoteSteps(rule);
    WalkGo(s0, 0, st, 1, st);
    WalkGo(s1, 1, st, 1, e);
    WalkGo(s2, 2, e, 1, d);
    WalkGo(s3, 3, d, 3, d.(multiline := InBasic));
    WalkGo(s4, 6, d.(multiline := InBasic), 1, d.(multiline := InBasic));
  }

  lemma QuoteSteps(rule: ClosingRule)
    ensures var st := Start(rule); var e, d := st.(eq := 1), st.(eq := 1, depth := 1);
      && StepAt(FOUR_QUOTES, 0, st) == Go(1, st)
      && StepAt("=[\"\"\"x\"\"\"\",1]", 1, st) == Go(1, e)
      && StepAt("[\"\"\"x\"\"\"\",1]", 2, e) == Go(1, d)
      && StepAt("\"\"\"x\"\"\"\",1]", 3, d) == Go(3, d.(multiline := InBasic))
      && StepAt("x\"\"\"\",1]", 6, d.(multiline := InBasic)) == Go(1, d.(multiline := InBasic))
  {
    assert FOUR_QUOTES[0] == 'a';
  }

  /** The scanner takes the fourth quote for the start of a string that swallows the rest of the line. */
  lemma FourQuotesScanned()
    ensures ScanLine(FOUR_QUOTES, 0, Outside) == Walked(1, Outside, 1, -1, false, Three)
  {
    hide Walk, StepAt;
    var d := FRESH.(eq := 1, depth := 1);
    var s, r := "\"\"\"\",1]", "\",1]";
    UpToQuotes(Three);
    assert s[3..] == r && r[4..] == "";
    ScannedQuotes();
    WalkGo(s, 7, d.(multiline := InBasic), 3, d);
    WalkGo(r, 10, d, 4, d.(clean := false));
    WalkNothing(14, d.(clean := false));
  }

  lemma ScannedQuotes()
    ensures var d := FRESH.(eq := 1, depth := 1);
      && StepAt("\"\"\"\",1]", 7, d.(multiline := InBasic)) == Go(3, d)
      && StepAt("\",1]", 10, d) == Go(4, d.(clean := false))
  {
    var r := "\",1]";
    assert !BasicCloses(r, 4) && BasicEnd(r, 4) == 4;
    assert !BasicCloses(r, 3) && !BasicCloses(r, 2) && !BasicCloses(r, 1);
    Unclosed(r);
  }

  /** TOML takes it for the last character of the string. */
  lemma FourQuotesToml()
    ensures TomlLine(FOUR_QUOTES, 0, Outside) == Walked(0, Outside, 1, -1, true, UpToFive)
  {
    hide Walk, StepAt;
    var st := TOML.(eq := 1);
    var d := st.(depth := 1);
    var s, r := "\"\"\"\",1]", ",1]";
    UpToQuotes(UpToFive);
    assert s[4..] == r && r[1..] == "1]" && "1]"[1..] == "]" && "]"[1..] == "";
    TomlQuotes();
    WalkGo(s, 7, d.(multiline := InBasic), 4, d);
    WalkGo(r, 11, d, 1, d);
    WalkGo("1]", 12, d, 1, d);
    WalkGo("]", 13, d, 1, st);
    WalkNothing(14, st);
  }

  lemma TomlQuotes()
    ensures var st := TOML.(eq := 1); var d := st.(depth := 1);
      && StepAt("\"\"\"\",1]", 7, d.(multiline := InBasic)) == Go(4, d)
      && StepAt(",1]", 11, d) == Go(1, d) && StepAt("1]", 12, d) == Go(1, d) && StepAt("]", 13, d) == Go(1, st)
  {
    var s := "\"\"\"\",1]";
    assert UpToTwo(s, '"', 3) == 4;
  }

  lemma FourQuotesLines()
    ensures Split(FOUR_QUOTES, '\n') == [FOUR_QUOTES] && Body(FOUR_QUOTES) == FOUR_QUOTES && !IsFiller(FOUR_QUOTES)
    ensures '\r' !in FOUR_QUOTES && '\n' !in FOUR_QUOTES
  {
    hide Split;
    var l := FOUR_QUOTES;
    assert l[0] == 'a' && l[|l| - 1] == ']';
    NoSpaceAtEnds(l);
    SplitOfHead(l, '\n', "");
  }

  lemma NoSpaceAtEnds(l: string)
    requires l != "" && l[0] == 'a' && l[|l| - 1] == ']'
    ensures Trim(l) == l && !IsFiller(l)
  {
    TrimFixed(l);
  }

  /**
   A valid array in which a multi-line string ends in a quote of its own: it has no header and,
   if its value has none, no NaN; the scanner does not find its end, and the source is refused.
   */
  lemma FourQuotesRefused<V, D>(reader: Reader<V>, parse: string -> Option<D>, equal: (D, D) -> bool)
    requires Readable(ReadStatement([FOUR_QUOTES]), reader) && parse(FOUR_QUOTES).Some?
    ensures Regular(FOUR_QUOTES) && SafeHeaders(Split(FOUR_QUOTES, '\n')) && !LinesAgree(Split(FOUR_QUOTES, '\n'))
    ensures Meaning(FOUR_QUOTES, reader) == Some(map["a" := Leaf(reader.value(ReadStatement([FOUR_QUOTES]).value.value))])
    ensures FormatToml(parse, equal, FOUR_QUOTES) == Err(ScanFailed(Unterminated(1)))
  {
    hide *;
    FourQuotesLines();
    FourQuotesFails();
    FourQuotesMeans(reader);
    FourQuotesRegular();
    ScanFails(FOUR_QUOTES, parse, equal);
  }

  lemma ScanFails<D>(source: string, parse: string -> Option<D>, equal: (D, D) -> bool)
    requires Body(source) == source && Split(source, '\n') == [source] && parse(source).Some?
    requires ScanFrom([source], 1, [ROOT], [], 0) == Err(Unterminated(1))
    ensures FormatToml(parse, equal, source) == Err(ScanFailed(Unterminated(1)))
  {
    hide Split, ScanFrom;
  }

  lemma FourQuotesRegular()
    ensures Regular(FOUR_QUOTES) && SafeHeaders(Split(FOUR_QUOTES, '\n')) && !LinesAgree(Split(FOUR_QUOTES, '\n'))
  {
    hide Split, ScanLine, TomlLine, IsFiller, ConsumeKv, Body;
    FourQuotesLines();
    FourQuotesScanned();
    FourQuotesToml();
    FourQuotesFails();
  }

  lemma FourQuotesMeans<V>(reader: Reader<V>)
    requires Readable(ReadStatement([FOUR_QUOTES]), reader)
    ensures Meaning(FOUR_QUOTES, reader) == Some(map["a" := Leaf(reader.value(ReadStatement([FOUR_QUOTES]).value.value))])
  {
    hide Split, SectionsFrom, EvaluateSections, ReadStatement;
    FourQuotesLines();
    FourQuotesSections();
    FourQuotesStatement();
    FourQuotesEvaluate(ReadStatement([FOUR_QUOTES]).value.value, reader);
  }

  /** The scan of its only line. */
  lemma FourQuotesFails()
    ensures ConsumeKv([FOUR_QUOTES], 0) == Err(Unterminated(0))
    ensures ScanFrom([FOUR_QUOTES], 1, [ROOT], [], 0) == Err(Unterminated(1))
  {
    hide ScanLine, IsFiller;
    FourQuotesLines();
    FourQuotesScanned();
    assert [FOUR_QUOTES][1..] == [];
  }

  lemma FourQuotesSections()
    ensures SectionsFrom([FOUR_QUOTES], [Section(Top, [])]) == Some([Section(Top, [ReadStatement([FOUR_QUOTES])])])
  {
    hide *;
    FourQuotesLines();
    FourQuotesToml();
    OneConstruct(FOUR_QUOTES);
  }

  /** A single line with a separator that ends its construct. */
  lemma OneConstruct(l: string)
    requires var t := TomlLine(l, 0, Outside); !IsFiller(l) && t.eq >= 0 && t.depth == 0 && t.multiline == Outside
    ensures SectionsFrom([l], [Section(Top, [])]) == Some([Section(Top, [ReadStatement([l])])])
  {
    hide TomlLine, IsFiller, ReadStatement;
    assert [l][1..] == [] && [] + [ReadStatement([l])] == [ReadStatement([l])];
    assert ConstructLength([l]) == Some(1);
    var added := AddStatement([Section(Top, [])], ReadStatement([l]));
    assert added == [Section(Top, [ReadStatement([l])])];
    assert SectionsFrom([], added) == Some(added);
  }

  lemma FourQuotesStatement()
    ensures ReadStatement([FOUR_QUOTES]).Some? && ReadStatement([FOUR_QUOTES]).value.path == ["a"]
  {
    hide *;
    FourQuotesToml();
    AFirst();
    WordStatement(FOUR_QUOTES);
  }

  lemma AFirst()
    ensures |FOUR_QUOTES| > 1 && FOUR_QUOTES[..1] == "a"
  {
  }

  lemma WordStatement(l: string)
    requires TomlLine(l, 0, Outside).eq == 1 && |l| > 1 && l[..1] == "a"
    ensures ReadStatement([l]).Some? && ReadStatement([l]).value.path == ["a"]
  {
    hide TomlLine, Read, PathOf;
    WordAlone("a");
  }

  lemma WordAlone(w: string)
    requires w == "a"
    ensures PathOf(Read(w, Outside)) == Some([w])
  {
    hide Read, PathOf, IsBare, Marks;
    AIsBare();
    assert w + "" == w;
    BareChars(w);
    ReadWord(w, "");
    NothingRead(Outside);
    assert Marks(w, false) + [] == Marks(w, false);
    WordPath(w, false);
  }

  lemma AIsBare()
    ensures IsBare("a")
  {
  }

  lemma FourQuotesEvaluate<V>(value: seq<seq<Token>>, reader: Reader<V>)
    requires reader.valid(value)
    ensures EvaluateSections(map[], [Section(Top, [Some(Statement(["a"], value))])], reader)
         == Some(map["a" := Leaf(reader.value(value))])
  {
    hide ApplySection;
    var section := Section(Top, [Some(Statement(["a"], value))]);
    FourQuotesApply(value, reader);
    assert [section][1..] == [];
  }

  lemma FourQuotesApply<V>(value: seq<seq<Token>>, reader: Reader<V>)
    requires reader.valid(value)
    ensures ApplySection(map[], Section(Top, [Some(Statement(["a"], value))]), reader) == Some(map["a" := Leaf(reader.value(value))])
  {
    hide Fill;
    var e := Entry(["a"], reader.value(value));
    assert EntriesOf([Some(Statement(["a"], value))], reader) == [e];
    FillOne(e);
  }
}
