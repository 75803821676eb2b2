/**
 When the guards of `formatToml` accept: a parser that reads the lines of a text by TOML's
 rules gets the same document from the output as from the source, so only a NaN, which
 `deepEqual` never equates with itself, can make it refuse.
 */
module FormatAccepts {
  import opened JsText
  import opened Wrappers
  import opened FormatScan
  import opened FormatDoc
  import opened FormatLines
  import opened FormatRescan
  import opened FormatAgree
  import opened FormatTokens
  import opened FormatIdempotence
  import opened TomlLines
  import opened FormatMeaning
  import DeepEqual
  import Sorting

  // ----- The document a text declares -----

  function AddStatement(sections: seq<Section>, s: Option<Statement>): (r: seq<Section>)
    requires sections != []
    ensures r != []
  {
    var last := sections[|sections| - 1];
    sections[..|sections| - 1] + [last.(statements := last.statements + [s])]
  }

  /** What the lines of a text say, as they stand there, cut into constructs by TOML's own walk. */
  function SectionsFrom(lines: seq<string>, sections: seq<Section>): Option<seq<Section>>
    requires sections != []
    decreases |lines|
  {
    if lines == [] then Some(sections)
    else
      var raw := lines[0];
      if IsFiller(raw) then SectionsFrom(lines[1..], sections)
      else if TomlLine(raw, 0, Outside).eq < 0 then
        if Trim(raw)[0] != '[' then None
        else SectionsFrom(lines[1..], sections + [Section(HeadingOf(raw), [])])
      else
        match ConstructLength(lines)
        case None => None
        case Some(n) => SectionsFrom(lines[n..], AddStatement(sections, ReadStatement(lines)))
  }

  function EvaluateSections<V>(fields: Fields<V>, sections: seq<Section>, reader: Reader<V>): Option<Fields<V>>
    decreases |sections|
  {
    if sections == [] then Some(fields)
    else
      match ApplySection(fields, sections[0], reader)
      case None => None
      case Some(next) => EvaluateSections(next, sections[1..], reader)
  }

  /** The document the lines of a text declare, or `None` when TOML rejects them. */
  function MeaningOfLines<V>(lines: seq<string>, reader: Reader<V>): Option<Fields<V>> {
    match SectionsFrom(lines, [Section(Top, [])])
    case None => None
    case Some(sections) => EvaluateSections(map[], sections, reader)
  }

  function Meaning<V>(text: string, reader: Reader<V>): Option<Fields<V>> {
    MeaningOfLines(Split(text, '\n'), reader)
  }

  // ----- Stored blocks say what the lines say -----

  function Sections(blocks: seq<Block>): (r: seq<Section>)
    ensures |r| == |blocks| && forall i | 0 <= i < |r| :: r[i] == SectionOf(blocks[i])
  {
    seq(|blocks|, i requires 0 <= i < |blocks| => SectionOf(blocks[i]))
  }

  lemma {:induction false} EvaluateBlocks<V>(fields: Fields<V>, blocks: seq<Block>, reader: Reader<V>)
    ensures EvaluateSections(fields, Sections(blocks), reader) == Evaluate(fields, blocks, reader)
    decreases |blocks|
  {
    hide ApplySection, SectionOf;
    if blocks != [] {
      assert Sections(blocks)[1..] == Sections(blocks[1..]);
      var next := ApplySection(fields, SectionOf(blocks[0]), reader);
      if next.Some? { EvaluateBlocks(next.value, blocks[1..], reader); }
    }
  }

  /** The scanner ends each construct where TOML does, and stores it as lines that say what its own lines say. */
  ghost predicate Kept(lines: seq<string>)
    decreases |lines|
  {
    if lines == [] then true
    else
      var raw := lines[0];
      if IsFiller(raw) then Kept(lines[1..])
      else if ScanLine(raw, 0, Outside).eq < 0 then
        && TomlLine(raw, 0, Outside).eq < 0
        && HeadingOf(NormaliseHeader(Trim(raw)) + EndOfLine(raw)) == HeadingOf(raw) && Kept(lines[1..])
      else
        ConstructAgrees(lines) &&
        match ConsumeKv(lines, 0)
        case Err(_) => true
        case Ok(consumed) =>
          ConsumeLength(lines, 0);
          ReadStatement(consumed.lines) == ReadStatement(lines) && Kept(lines[|consumed.lines|..])
  }

  lemma SectionsAddKv(blocks: seq<Block>, kv: Kv)
    requires blocks != []
    ensures Sections(AddKv(blocks, kv)) == AddStatement(Sections(blocks), ReadStatement(kv.lines))
  {
    hide ReadStatement, HeadingOf;
    var last := blocks[|blocks| - 1];
    assert Statements(last.kvs + [kv]) == Statements(last.kvs) + [ReadStatement(kv.lines)];
    assert SectionOf(last.(kvs := last.kvs + [kv]))
        == SectionOf(last).(statements := Statements(last.kvs) + [ReadStatement(kv.lines)]);
  }

  lemma SectionsAddBlock(blocks: seq<Block>, b: Block)
    requires b.kvs == [] && b.header.Some?
    ensures Sections(blocks + [b]) == Sections(blocks) + [Section(HeadingOf(b.header.value.line), [])]
  {
    hide ReadStatement, HeadingOf;
    assert SectionOf(b).statements == [];
  }

  lemma SameOutcome(lines: seq<string>, line: nat)
    requires lines != [] && ScanLine(lines[0], 0, Outside).eq >= 0
    ensures ConsumeKv(lines, 0).Ok? == ConsumeKv(lines, line).Ok?
    ensures ConsumeKv(lines, 0).Ok? ==> ConsumeKv(lines, 0) == ConsumeKv(lines, line)
  {
    hide ScanLine, Continue, FirstLine, KeyOf, ConsumeKv;
    ConsumeShape(lines, 0);
    ConsumeShape(lines, line);
  }

  /** A scan stores the sections that the lines declare. */
  lemma {:induction false} ScanKept(lines: seq<string>, line: nat, blocks: seq<Block>, pending: seq<string>, order: nat)
    requires blocks != [] && Kept(lines)
    ensures SectionsFrom(lines, Sections(blocks)) ==
      match ScanFrom(lines, line, blocks, pending, order)
      case Err(_) => None
      case Ok(doc) => Some(Sections(doc.blocks))
    decreases |lines|
  {
    hide ScanLine, TomlLine, ConsumeKv, Trim, HeaderName, NormaliseHeader, EndOfLine, AnyBlank, ReadStatement, HeadingOf,
      Sections, AddKv, AddStatement, ConstructLength, RestAgrees;
    if lines != [] {
      var raw := lines[0];
      if IsFiller(raw) {
        ScanKept(lines[1..], line + 1, blocks, pending + [raw], order);
      } else if ScanLine(raw, 0, Outside).eq < 0 {
        if Trim(raw)[0] == '[' {
          var b := Block(HeaderName(Trim(raw)), Some(Header(NormaliseHeader(Trim(raw)) + EndOfLine(raw), pending)), []);
          SectionsAddBlock(blocks, b);
          ScanKept(lines[1..], line + 1, blocks + [b], [], order);
        }
      } else {
        SameOutcome(lines, line);
        SameLength(lines, line);
        if ConsumeKv(lines, line).Ok? {
          var consumed := ConsumeKv(lines, line).value;
          ConsumeLength(lines, line);
          var kv := Kv(consumed.key, consumed.lines, pending, AnyBlank(pending), order);
          SectionsAddKv(blocks, kv);
          ScanKept(lines[|consumed.lines|..], line + |consumed.lines|, AddKv(blocks, kv), [], order + 1);
        }
      }
    }
  }

  /** Every header is one of TOML's, and the rewriting cuts off no bracket and no whole comment. */
  ghost predicate SafeHeaders(lines: seq<string>)
    decreases |lines|
  {
    if lines == [] then true
    else if IsFiller(lines[0]) then SafeHeaders(lines[1..])
    else if ScanLine(lines[0], 0, Outside).eq < 0 then
      ReadHeader(lines[0]).Some? && HeaderSafe(Trim(lines[0])) && SafeHeaders(lines[1..])
    else
      match ConsumeKv(lines, 0)
      case Err(_) => true
      case Ok(consumed) =>
        ConsumeLength(lines, 0);
        SafeHeaders(lines[|consumed.lines|..])
  }

  /** The lines of a regular source are kept. */
  lemma {:induction false} TidyKept(lines: seq<string>)
    requires PlainLines(lines) && TidyLines(lines) && SafeHeaders(lines) && LinesAgree(lines)
    ensures Kept(lines)
    decreases |lines|
  {
    hide IsFiller, ScanLine, TomlLine, ConsumeKv, Trim, NormaliseHeader, ReadStatement, ReadHeader, HeaderSafe, HeaderPlain,
      TidyKv, NoMark, EndOfLine, ConstructLength, RestAgrees;
    if lines != [] {
      var raw := lines[0];
      if IsFiller(raw) {
        TidyKept(lines[1..]);
      } else if ScanLine(raw, 0, Outside).eq < 0 {
        HeaderRead(raw);
        PlainEnd(raw);
        assert NormaliseHeader(Trim(raw)) + "" == NormaliseHeader(Trim(raw));
        TidyKept(lines[1..]);
      } else if ConsumeKv(lines, 0).Ok? {
        ConsumeLength(lines, 0);
        SameLength(lines, 0);
        StatementKept(lines, 0);
        TidyKept(lines[|ConsumeKv(lines, 0).value.lines|..]);
      }
    }
  }

  lemma PlainEnd(raw: string)
    requires '\r' !in raw
    ensures EndOfLine(raw) == ""
  {
    if raw != "" { assert raw[|raw| - 1] in raw; }
  }

  // ----- Rendered lines are kept -----

  /** The scanner ends what is stored for a construct where TOML does. */
  ghost predicate KvAgrees(kv: Kv) {
    kv.lines != [] && ConstructAgrees(kv.lines)
  }

  ghost predicate BlockAgrees(b: Block) {
    && (b.header.Some? ==> TomlLine(b.header.value.line, 0, Outside).eq < 0)
    && forall kv | kv in b.kvs :: KvAgrees(kv)
  }

  ghost predicate AllAgree(blocks: seq<Block>) {
    forall b | b in blocks :: BlockAgrees(b)
  }

  lemma {:induction false} KeptFillers(fill: seq<string>, rest: seq<string>)
    requires Fillers(fill)
    ensures Kept(fill + rest) == Kept(rest)
    decreases |fill|
  {
    hide IsFiller, ConsumeKv, ScanLine, TomlLine, ReadStatement, HeadingOf, NormaliseHeader, Trim;
    if fill == [] {
      assert fill + rest == rest;
    } else {
      assert (fill + rest)[1..] == fill[1..] + rest && (fill + rest)[0] == fill[0];
      KeptFillers(fill[1..], rest);
    }
  }

  /** Lines behind the end of a value do not change what it says. */
  lemma {:induction false} ReadRestMore(lines: seq<string>, more: seq<string>, depth: nat, multiline: Multiline)
    requires Continue(lines, depth, multiline) == Some(lines) && RestAgrees(lines, depth, multiline)
    ensures ReadRest(lines + more, depth, multiline) == ReadRest(lines, depth, multiline)
  {
    hide ScanLine, TomlLine, NormaliseContinuation, Read;
    if !(depth == 0 && multiline == Outside) {
      var after := ScanLine(lines[0], depth, multiline);
      assert (lines + more)[1..] == lines[1..] + more;
      var tail := Continue(lines[1..], after.depth, after.multiline);
      assert tail.Some? && lines[1..] == tail.value;
      ReadRestMore(lines[1..], more, after.depth, after.multiline);
    }
  }

  lemma StatementMore(key: string, lines: seq<string>, more: seq<string>)
    requires KvFixed(key, lines) && ConstructAgrees(lines)
    ensures ReadStatement(lines + more) == ReadStatement(lines) && ConstructAgrees(lines + more)
  {
    hide ScanLine, TomlLine, FirstAgrees, FirstLine, KeyOf, ConsumeKv, Continue, IsFiller, Read, ReadRest, PathOf;
    var scan := ScanLine(lines[0], 0, Outside);
    ConsumeShape(lines, 0);
    var rest := Continue(lines[1..], scan.depth, scan.multiline).value;
    assert lines[1..] == ([FirstLine(lines[0])] + rest)[1..] == rest;
    FirstState(lines[0]);
    ReadRestMore(lines[1..], more, scan.depth, scan.multiline);
    RestAgreesMore(lines[1..], more, scan.depth, scan.multiline);
    assert (lines + more)[1..] == lines[1..] + more;
  }

  lemma FirstState(raw: string)
    requires FirstAgrees(raw)
    ensures SameState(ScanLine(raw, 0, Outside), TomlLine(raw, 0, Outside))
  {
  }

  lemma KeptKv(kv: Kv, bare: bool, rest: seq<string>)
    requires KvOk(kv) && KvAgrees(kv)
    ensures Kept(KvLines(kv, bare, "") + rest) == Kept(rest)
  {
    hide Kept, ConsumeKv, ScanLine, TomlLine, ConstructAgrees, IsFiller, Lead, IsBlankLine, ReadStatement, HeadingOf, NormaliseHeader, Trim;
    var fill := Reread(kv.leading, kv.spaced && !bare);
    RereadOk(kv.leading, kv.spaced && !bare);
    assert KvLines(kv, bare, "") + rest == fill + (kv.lines + rest);
    KeptFillers(fill, kv.lines + rest);
    ConsumeMore(kv.key, kv.lines, rest, 0);
    StatementMore(kv.key, kv.lines, rest);
    assert (kv.lines + rest)[|kv.lines|..] == rest && (kv.lines + rest)[0] == kv.lines[0];
    KeptStep(kv.lines + rest);
  }

  lemma KeptStep(lines: seq<string>)
    requires lines != [] && !IsFiller(lines[0]) && ScanLine(lines[0], 0, Outside).eq >= 0 && ConsumeKv(lines, 0).Ok?
    requires ConstructAgrees(lines)
    ensures var c := ConsumeKv(lines, 0).value;
      |c.lines| <= |lines| &&
      Kept(lines) == (ReadStatement(c.lines) == ReadStatement(lines) && Kept(lines[|c.lines|..]))
  {
    hide ConsumeKv, ScanLine, TomlLine, ConstructAgrees, IsFiller, ReadStatement, HeadingOf;
    ConsumeLength(lines, 0);
  }

  lemma {:induction false} KeptKvs(kvs: seq<Kv>, bare: bool, rest: seq<string>)
    requires forall kv | kv in kvs :: KvOk(kv) && KvAgrees(kv)
    ensures Kept(KvsLines(kvs, bare, "") + rest) == Kept(rest)
    decreases |kvs|
  {
    hide Kept, KvOk, KvAgrees, KvLines;
    if kvs == [] {
      assert KvsLines(kvs, bare, "") + rest == rest;
    } else {
      var head := KvLines(kvs[0], bare, "");
      var tail := KvsLines(kvs[1..], bare && head == [], "");
      assert KvsLines(kvs, bare, "") + rest == head + (tail + rest);
      KeptKv(kvs[0], bare, tail + rest);
      KeptKvs(kvs[1..], bare && head == [], rest);
    }
  }

  lemma KeptHeader(b: Block, bare: bool, rest: seq<string>)
    requires HeaderOk(b) && TomlLine(b.header.value.line, 0, Outside).eq < 0
    ensures Kept(HeaderLines(b.header, bare, "") + rest) == Kept(rest)
  {
    hide Kept, ConsumeKv, ScanLine, TomlLine, IsFiller, Lead, IsBlankLine, HeaderName, NormaliseHeader, Trim, EndOfLine, HeadingOf;
    var h := b.header.value;
    var fill := Reread(h.leading, !bare);
    RereadOk(h.leading, !bare);
    assert HeaderLines(b.header, bare, "") + rest == fill + ([h.line] + rest);
    KeptFillers(fill, [h.line] + rest);
    assert ([h.line] + rest)[1..] == rest;
    KeptHeaderStep([h.line] + rest);
  }

  lemma KeptHeaderStep(lines: seq<string>)
    requires lines != [] && !IsFiller(lines[0]) && ScanLine(lines[0], 0, Outside).eq < 0
    requires TomlLine(lines[0], 0, Outside).eq < 0
    ensures Kept(lines)
        == (HeadingOf(NormaliseHeader(Trim(lines[0])) + EndOfLine(lines[0])) == HeadingOf(lines[0]) && Kept(lines[1..]))
  {
    hide ConsumeKv, ScanLine, TomlLine, IsFiller, HeadingOf, NormaliseHeader, Trim, EndOfLine;
  }

  lemma OrderKvsAgree(b: Block)
    requires BlockAgrees(b)
    ensures forall kv | kv in OrderKvs(b) :: KvAgrees(kv)
  {
    hide KvAgrees, FieldRank, FieldTable;
    var table := FieldTable(b.name);
    Sorting.StableSortCorrect(b.kvs, (kv: Kv) => FieldRank(table, kv.key));
    forall kv | kv in OrderKvs(b) ensures KvAgrees(kv) {
      assert kv in multiset(OrderKvs(b));
    }
  }

  lemma KeptBlock(b: Block, bare: bool, rest: seq<string>)
    requires (b.header.None? || HeaderOk(b)) && KvsOk(b) && BlockAgrees(b)
    ensures Kept(BlockLines(b, bare, "") + rest) == Kept(rest)
  {
    hide Kept, KvOk, KvAgrees, OrderKvs, KvsLines, HeaderOk, HeaderLines, KvsOk, TomlLine;
    var head, body := HeaderLines(b.header, bare, ""), KvsLines(OrderKvs(b), bare && b.header.None?, "");
    OrderKvsMembers(b);
    OrderKvsAgree(b);
    assert BlockLines(b, bare, "") + rest == head + (body + rest);
    KeptKvs(OrderKvs(b), bare && b.header.None?, rest);
    if b.header.Some? {
      KeptHeader(b, bare, body + rest);
    } else {
      NoHeaderLines(bare);
      assert head + (body + rest) == body + rest;
    }
  }

  lemma NoHeaderLines(bare: bool)
    ensures HeaderLines(None, bare, "") == []
  {
  }

  lemma {:induction false} KeptBlocks(bs: seq<Block>, bare: bool, rest: seq<string>)
    requires forall b | b in bs :: (b.header.None? || HeaderOk(b)) && KvsOk(b) && BlockAgrees(b)
    ensures Kept(BlocksLines(bs, bare, "") + rest) == Kept(rest)
    decreases |bs|
  {
    hide Kept, HeaderOk, KvsOk, BlockAgrees, BlockLines;
    if bs == [] {
      assert BlocksLines(bs, bare, "") + rest == rest;
    } else {
      var head := BlockLines(bs[0], bare, "");
      var tail := BlocksLines(bs[1..], bare && head == [], "");
      assert BlocksLines(bs, bare, "") + rest == head + (tail + rest);
      KeptBlock(bs[0], bare, tail + rest);
      KeptBlocks(bs[1..], bare && head == [], rest);
    }
  }

  /** A rendered document is stored as it is written. */
  lemma RenderKept(blocks: seq<Block>, trailer: seq<string>)
    requires BlocksOk(blocks) && Fillers(trailer) && AllAgree(blocks)
    ensures Kept(RenderLines(blocks, trailer, ""))
  {
    hide Kept, HeaderOk, KvsOk, BlockAgrees, Fillers, TrailerLines, BlocksLines;
    TailOk(blocks);
    forall b | b in blocks ensures (b.header.None? || HeaderOk(b)) && KvsOk(b) && BlockAgrees(b) {
      if b != blocks[0] { assert b in blocks[1..]; }
    }
    TrailerOk(trailer);
    KeptBlocks(blocks, true, TrailerLines(trailer));
    KeptFillers(TrailerLines(trailer), []);
    assert TrailerLines(trailer) + [] == TrailerLines(trailer);
    NothingKept();
  }

  /** What a scan stores of lines on which the scanner agrees with TOML. */
  lemma {:induction false} ScanAgrees(lines: seq<string>, line: nat, blocks: seq<Block>, pending: seq<string>, order: nat)
    requires blocks != [] && AllAgree(blocks) && PlainLines(lines) && TidyLines(lines) && LinesAgree(lines)
    requires ScanFrom(lines, line, blocks, pending, order).Ok?
    ensures AllAgree(ScanFrom(lines, line, blocks, pending, order).value.blocks)
    decreases |lines|
  {
    hide IsFiller, ScanLine, TomlLine, ConsumeKv, TidyKv, HeaderPlain, NormaliseHeader, HeaderName, Trim, AnyBlank, AllAgree,
      EndOfLine, NoMark, ConstructLength, ConstructAgrees;
    if lines != [] {
      var raw := lines[0];
      if IsFiller(raw) {
        ScanAgrees(lines[1..], line + 1, blocks, pending + [raw], order);
      } else if ScanLine(raw, 0, Outside).eq < 0 {
        SameEq(lines);
        ConstructRead(lines, line, blocks, pending, order);
        HeaderAgrees(raw);
        PlainEnd(raw);
        assert NormaliseHeader(Trim(raw)) + "" == NormaliseHeader(Trim(raw));
        var b := Block(HeaderName(Trim(raw)), Some(Header(NormaliseHeader(Trim(raw)) + EndOfLine(raw), pending)), []);
        AddBlockAgrees(blocks, b);
        ScanAgrees(lines[1..], line + 1, blocks + [b], [], order);
      } else {
        SameEq(lines);
        SameOutcome(lines, line);
        SameLength(lines, line);
        ConsumeLength(lines, line);
        ConstructStable(lines, line);
        var c := ConsumeKv(lines, line).value;
        var kv := Kv(c.key, c.lines, pending, AnyBlank(pending), order);
        AddKvAgrees(blocks, kv);
        ScanAgrees(lines[|c.lines|..], line + |c.lines|, AddKv(blocks, kv), [], order + 1);
      }
    }
  }

  /** Where both agree, they tell headers from key/values alike. */
  lemma SameEq(lines: seq<string>)
    requires lines != [] && !IsFiller(lines[0]) && LinesAgree(lines)
    ensures ScanLine(lines[0], 0, Outside).eq < 0 <==> TomlLine(lines[0], 0, Outside).eq < 0
    ensures ScanLine(lines[0], 0, Outside).eq >= 0 ==> ConstructAgrees(lines)
  {
    hide Walk, RestAgrees, IsFiller;
  }

  lemma AddBlockAgrees(blocks: seq<Block>, b: Block)
    requires AllAgree(blocks) && BlockAgrees(b)
    ensures AllAgree(blocks + [b])
  {
    hide BlockAgrees;
  }

  lemma AddKvAgrees(blocks: seq<Block>, kv: Kv)
    requires blocks != [] && AllAgree(blocks) && KvAgrees(kv)
    ensures AllAgree(AddKv(blocks, kv))
  {
    hide KvAgrees, TomlLine;
    var r, last := AddKv(blocks, kv), blocks[|blocks| - 1];
    assert last in blocks;
    forall b | b in r ensures BlockAgrees(b) {
      if b !in blocks { assert b == last.(kvs := last.kvs + [kv]); }
    }
  }

  lemma NothingKept()
    ensures Kept([])
  {
  }

  // ----- Reread blocks say what the laid-out blocks say -----

  lemma StatementsStep(kvs: seq<Kv>)
    requires kvs != []
    ensures Statements(kvs) == [ReadStatement(kvs[0].lines)] + Statements(kvs[1..])
  {
    hide ReadStatement;
  }

  lemma {:induction false} RereadStatements(kvs: seq<Kv>, bare: bool, order: nat)
    ensures Statements(RereadKvs(kvs, bare, order)) == Statements(kvs)
    decreases |kvs|
  {
    hide Statements, ReadStatement, Reread;
    if kvs != [] {
      RereadStatements(kvs[1..], false, order + 1);
      var again := RereadKvs(kvs, bare, order);
      assert again[1..] == RereadKvs(kvs[1..], false, order + 1);
      StatementsStep(kvs);
      StatementsStep(again);
    }
  }

  lemma RereadSection(b: Block, bare: bool, order: nat)
    ensures SectionOf(RereadBlock(b, bare, order)) == SectionOf(OrderedBlock(b))
  {
    hide Statements, HeadingOf, Reread, OrderKvs;
    RereadStatements(OrderKvs(b), bare && b.header.None?, order);
  }

  lemma {:induction false} RereadSections(blocks: seq<Block>, bare: bool, order: nat)
    ensures Sections(RereadBlocks(blocks, bare, order)) == Sections(Laid(blocks))
    decreases |blocks|
  {
    hide SectionOf, RereadBlock, OrderedBlock, BlockLines, OrderKvs;
    if blocks != [] {
      RereadSection(blocks[0], bare, order);
      var next := order + |OrderKvs(blocks[0])|;
      RereadSections(blocks[1..], bare && BlockLines(blocks[0], bare, "") == [], next);
      var again, laid := RereadBlocks(blocks, bare, order), Laid(blocks);
      assert again[1..] == RereadBlocks(blocks[1..], bare && BlockLines(blocks[0], bare, "") == [], next);
      assert laid[1..] == Laid(blocks[1..]);
      assert Sections(again) == [SectionOf(again[0])] + Sections(again[1..]);
      assert Sections(laid) == [SectionOf(laid[0])] + Sections(laid[1..]);
    }
  }

  // ----- Scanned documents -----

  lemma {:induction false} ScanIsScanned(lines: seq<string>, line: nat, blocks: seq<Block>, pending: seq<string>, order: nat)
    requires Scanned(blocks) && ScanFrom(lines, line, blocks, pending, order).Ok?
    ensures Scanned(ScanFrom(lines, line, blocks, pending, order).value.blocks)
    decreases |lines|
  {
    hide IsFiller, ScanLine, ConsumeKv, Trim, HeaderName, NormaliseHeader, EndOfLine, AnyBlank;
    if lines != [] {
      var raw := lines[0];
      if IsFiller(raw) {
        ScanIsScanned(lines[1..], line + 1, blocks, pending + [raw], order);
      } else if ScanLine(raw, 0, Outside).eq < 0 {
        var b := Block(HeaderName(Trim(raw)), Some(Header(NormaliseHeader(Trim(raw)) + EndOfLine(raw), pending)), []);
        assert (blocks + [b])[1..] == blocks[1..] + [b];
        ScanIsScanned(lines[1..], line + 1, blocks + [b], [], order);
      } else {
        var consumed := ConsumeKv(lines, line).value;
        ConsumeLength(lines, line);
        var kv := Kv(consumed.key, consumed.lines, pending, AnyBlank(pending), order);
        AddKvScanned(blocks, kv);
        ScanIsScanned(lines[|consumed.lines|..], line + |consumed.lines|, AddKv(blocks, kv), [], order + 1);
      }
    }
  }

  lemma AddKvScanned(blocks: seq<Block>, kv: Kv)
    requires Scanned(blocks)
    ensures Scanned(AddKv(blocks, kv))
  {
    var added := AddKv(blocks, kv);
    forall i | 1 <= i < |added| ensures added[i].header.Some? {
      assert blocks[i] in blocks[1..];
    }
  }

  // ----- Main results -----

  lemma RootSections()
    ensures Sections([ROOT]) == [Section(Top, [])] && Scanned([ROOT])
  {
    assert SectionOf(ROOT) == Section(Top, []);
  }

  lemma RootAgrees()
    ensures AllAgree([ROOT])
  {
  }

  lemma OrderAgrees(blocks: seq<Block>)
    requires AllAgree(blocks)
    ensures AllAgree(OrderBlocks(blocks))
  {
    hide BlockAgrees, SectionRank;
    Sorting.StableSortCorrect(blocks, (b: Block) => SectionRank(b.name));
    forall b | b in OrderBlocks(blocks) ensures BlockAgrees(b) {
      assert b in multiset(OrderBlocks(blocks));
    }
  }

  lemma ScannedMeaning<V>(lines: seq<string>, reader: Reader<V>)
    requires Kept(lines) && ScanFrom(lines, 1, [ROOT], [], 0).Ok?
    ensures MeaningOfLines(lines, reader) == Evaluate(map[], ScanFrom(lines, 1, [ROOT], [], 0).value.blocks, reader)
  {
    hide SectionsFrom, Kept, EvaluateSections, Evaluate, ScanFrom, Sections;
    RootSections();
    ScanKept(lines, 1, [ROOT], [], 0);
    EvaluateBlocks(map[], ScanFrom(lines, 1, [ROOT], [], 0).value.blocks, reader);
  }

  /** The lines a layout writes declare the document of the lines it read. */
  lemma LayoutKeepsDocument<V>(lines: seq<string>, reader: Reader<V>)
    requires PlainLines(lines) && TidyLines(lines) && SafeHeaders(lines) && LinesAgree(lines)
    requires ScanFrom(lines, 1, [ROOT], [], 0).Ok?
    requires HeadsAgree(ScanFrom(lines, 1, [ROOT], [], 0).value.blocks)
    ensures var doc := ScanFrom(lines, 1, [ROOT], [], 0).value;
      var out := RenderLines(OrderBlocks(doc.blocks), doc.trailer, "");
      MeaningOfLines(out, reader) == MeaningOfLines(lines, reader)
  {
    hide ScanFrom, Evaluate, HeadsAgree, OrderBlocks, RenderLines, TrailerLines, Scanned, TidyLines, BlocksOk, Kept,
      SafeHeaders, MeaningOfLines, Sections, LinesAgree, AllAgree;
    RootOk();
    RootAgrees();
    ScanAgrees(lines, 1, [ROOT], [], 0);
    ScanOk(lines, 1, [ROOT], [], 0);
    var doc := ScanFrom(lines, 1, [ROOT], [], 0).value;
    var blocks := OrderBlocks(doc.blocks);
    OrderBlocksCorrect(doc.blocks);
    RescanDocument(blocks, doc.trailer);
    OrderAgrees(doc.blocks);
    RenderKept(blocks, doc.trailer);
    ScannedMeaning(RenderLines(blocks, doc.trailer, ""), reader);
    TidyKept(lines);
    ScannedMeaning(lines, reader);
    RereadSections(blocks, true, 0);
    EvaluateBlocks(map[], RereadBlocks(blocks, true, 0), reader);
    EvaluateBlocks(map[], Laid(blocks), reader);
    RootSections();
    ScanIsScanned(lines, 1, [ROOT], [], 0);
    ReorderPreservesMeaning(doc.blocks, reader);
  }

  /** The scan of lines that TOML accepts ends well, whatever their headers. */
  lemma {:induction false} AcceptedScans(lines: seq<string>, sections: seq<Section>, line: nat, blocks: seq<Block>,
                                         pending: seq<string>, order: nat)
    requires blocks != [] && sections != [] && LinesAgree(lines) && SectionsFrom(lines, sections).Some?
    ensures ScanFrom(lines, line, blocks, pending, order).Ok?
    decreases |lines|
  {
    hide ScanLine, TomlLine, ConsumeKv, Trim, HeaderName, NormaliseHeader, EndOfLine, AnyBlank, ReadStatement, HeadingOf,
      AddStatement, ConstructLength, ConstructAgrees;
    if lines != [] {
      var raw := lines[0];
      if IsFiller(raw) {
        AcceptedScans(lines[1..], sections, line + 1, blocks, pending + [raw], order);
      } else if ScanLine(raw, 0, Outside).eq < 0 {
        SameEq(lines);
        var b := Block(HeaderName(Trim(raw)), Some(Header(NormaliseHeader(Trim(raw)) + EndOfLine(raw), pending)), []);
        AcceptedScans(lines[1..], sections + [Section(HeadingOf(raw), [])], line + 1, blocks + [b], [], order);
      } else {
        SameEq(lines);
        SameLength(lines, line);
        ConsumeLength(lines, line);
        var c := ConsumeKv(lines, line).value;
        var kv := Kv(c.key, c.lines, pending, AnyBlank(pending), order);
        AcceptedScans(lines[|c.lines|..], AddStatement(sections, ReadStatement(lines)), line + |c.lines|,
                      AddKv(blocks, kv), [], order + 1);
      }
    }
  }

  /** A rendered text is read as its lines; no lines at all read as one empty line. */
  lemma MeaningOfRendered<V>(out: seq<string>, reader: Reader<V>)
    requires PlainLines(out)
    ensures Meaning(Join(out, '\n'), reader) == MeaningOfLines(out, reader)
  {
    hide SectionsFrom, Split, Join, PlainLines, EvaluateSections;
    if out == [] {
      NothingJoined();
      NothingDeclared();
    } else {
      PlainSplits(out);
    }
  }

  lemma NothingJoined()
    ensures Join([], '\n') == "" && Split("", '\n') == [""]
  {
  }

  lemma NothingDeclared()
    ensures SectionsFrom([""], [Section(Top, [])]) == SectionsFrom([], [Section(Top, [])])
  {
  }

  /**
   A parser that reads `text` by TOML's rules: it accepts what TOML accepts, and its data
   is a function of the document, here `data`.
   */
  ghost predicate Reads<V>(parse: string -> Option<DeepEqual.Value>, reader: Reader<V>, data: Fields<V> -> DeepEqual.Data,
                           text: string) {
    match Meaning(text, reader)
    case None => parse(text).None?
    case Some(fields) =>
      parse(text).Some? && DeepEqual.WellFormed(parse(text).value) && DeepEqual.DataOf(parse(text).value) == data(fields)
  }

  /**
   What formatting makes of a regular document that TOML accepts, when its headers are safe
   and agree: text that is already laid out comes back, and any other is rewritten if and
   only if the document holds no NaN.
   */
  lemma AcceptedUnlessNaN<V>(parse: string -> Option<DeepEqual.Value>, reader: Reader<V>, data: Fields<V> -> DeepEqual.Data,
                          source: string)
    requires Regular(source) && LinesAgree(Split(Body(source), '\n')) && SafeHeaders(Split(Body(source), '\n'))
    requires var scan := ScanDocument(Body(source)); scan.Ok? ==> HeadsAgree(scan.value.blocks)
    requires parse(Body(source)).Some? && Reads(parse, reader, data, Body(source))
    requires Layout(source).Ok? ==> Reads(parse, reader, data, Body(Layout(source).value))
    ensures Layout(source).Ok? && FormatToml(parse, DeepEqual.DeepEqual, source) ==
      if Layout(source).value == source then Ok(Formatted(source, false))
      else if DeepEqual.HasNaN(parse(Body(source)).value) then Err(ChangesMeaning)
      else Ok(Formatted(Layout(source).value, true))
  {
    hide HeadsAgree, Regular, SafeHeaders, LinesAgree, Layout, ScanDocument, Meaning, Body, Split;
    hide DeepEqual.DeepEqual, DeepEqual.HasNaN, DeepEqual.DataOf, DeepEqual.WellFormed;
    SameDocument(source, reader);
    AcceptedBody(source);
    var before, after := Body(source), Body(Layout(source).value);
    DeepEqual.Decides(parse(before).value, parse(after).value);
  }

  /** The output declares the document of the source. */
  lemma SameDocument<V>(source: string, reader: Reader<V>)
    requires Regular(source) && LinesAgree(Split(Body(source), '\n')) && SafeHeaders(Split(Body(source), '\n')) && Meaning(Body(source), reader).Some?
    requires var scan := ScanDocument(Body(source)); scan.Ok? ==> HeadsAgree(scan.value.blocks)
    ensures Layout(source).Ok? && Meaning(Body(Layout(source).value), reader) == Meaning(Body(source), reader)
  {
    hide ScanFrom, HeadsAgree, OrderBlocks, RenderLines, TidyLines, PlainLines, Split, Join, SafeHeaders, LinesAgree, Layout, Body,
      NoMark, SectionsFrom, EvaluateSections;
    var lines := Split(Body(source), '\n');
    AcceptedScans(lines, [Section(Top, [])], 1, [ROOT], [], 0);
    LayoutByLines(source);
    LayoutKeepsDocument(lines, reader);
    var out := LayoutLines(lines).value;
    LayoutLinesPlain(lines);
    MeaningOfRendered(out, reader);
    BodyOfOutput(source, out);
  }

  // ----- Headers that are not safe -----

  ghost predicate AnyGarbled(sections: seq<Section>) {
    exists i :: 0 <= i < |sections| && sections[i].heading.Garbled?
  }

  lemma {:induction false} GarbledFails<V>(fields: Fields<V>, sections: seq<Section>, reader: Reader<V>)
    requires AnyGarbled(sections)
    ensures EvaluateSections(fields, sections, reader) == None
    decreases |sections|
  {
    hide Fill, Open, EntriesOf, AllReadable;
    if !sections[0].heading.Garbled? {
      var i :| 0 <= i < |sections| && sections[i].heading.Garbled?;
      assert sections[1..][i - 1].heading.Garbled?;
      var next := ApplySection(fields, sections[0], reader);
      if next.Some? { GarbledFails(next.value, sections[1..], reader); }
    }
  }

  lemma AddStatementGarbled(sections: seq<Section>, s: Option<Statement>)
    requires sections != [] && AnyGarbled(sections)
    ensures AnyGarbled(AddStatement(sections, s))
  {
    var i :| 0 <= i < |sections| && sections[i].heading.Garbled?;
    assert AddStatement(sections, s)[i].heading.Garbled?;
  }

  lemma MoreGarbled(sections: seq<Section>, s: Section)
    requires AnyGarbled(sections) || s.heading.Garbled?
    ensures AnyGarbled(sections + [s])
  {
    var all := sections + [s];
    if s.heading.Garbled? {
      assert all[|sections|].heading.Garbled?;
    } else {
      var i :| 0 <= i < |sections| && sections[i].heading.Garbled?;
      assert all[i].heading.Garbled?;
    }
  }

  /** A garbled header stays garbled, in the text and in the stored blocks. */
  lemma {:induction false} GarbledStays(lines: seq<string>, sections: seq<Section>)
    requires sections != [] && AnyGarbled(sections) && SectionsFrom(lines, sections).Some?
    ensures AnyGarbled(SectionsFrom(lines, sections).value)
    decreases |lines|
  {
    hide IsFiller, TomlLine, ConstructLength, Trim, ReadStatement, HeadingOf, AddStatement, AnyGarbled;
    if lines != [] {
      var raw := lines[0];
      if IsFiller(raw) {
        GarbledStays(lines[1..], sections);
      } else if TomlLine(raw, 0, Outside).eq < 0 {
        MoreGarbled(sections, Section(HeadingOf(raw), []));
        GarbledStays(lines[1..], sections + [Section(HeadingOf(raw), [])]);
      } else {
        AddStatementGarbled(sections, ReadStatement(lines));
        GarbledStays(lines[ConstructLength(lines).value..], AddStatement(sections, ReadStatement(lines)));
      }
    }
  }

  lemma {:induction false} GarbledStored(lines: seq<string>, line: nat, blocks: seq<Block>, pending: seq<string>, order: nat)
    requires blocks != [] && AnyGarbled(Sections(blocks)) && ScanFrom(lines, line, blocks, pending, order).Ok?
    ensures AnyGarbled(Sections(ScanFrom(lines, line, blocks, pending, order).value.blocks))
    decreases |lines|
  {
    hide IsFiller, ScanLine, ConsumeKv, Trim, HeaderName, NormaliseHeader, EndOfLine, AnyBlank, ReadStatement, HeadingOf,
      Sections, AddKv, AddStatement, AnyGarbled;
    if lines != [] {
      var raw := lines[0];
      if IsFiller(raw) {
        GarbledStored(lines[1..], line + 1, blocks, pending + [raw], order);
      } else if ScanLine(raw, 0, Outside).eq < 0 {
        var b := Block(HeaderName(Trim(raw)), Some(Header(NormaliseHeader(Trim(raw)) + EndOfLine(raw), pending)), []);
        SectionsAddBlock(blocks, b);
        MoreGarbled(Sections(blocks), Section(HeadingOf(b.header.value.line), []));
        GarbledStored(lines[1..], line + 1, blocks + [b], [], order);
      } else {
        ConsumeLength(lines, line);
        var c := ConsumeKv(lines, line).value;
        var kv := Kv(c.key, c.lines, pending, AnyBlank(pending), order);
        SectionsAddKv(blocks, kv);
        AddStatementGarbled(Sections(blocks), ReadStatement(kv.lines));
        GarbledStored(lines[|c.lines|..], line + |c.lines|, AddKv(blocks, kv), [], order + 1);
      }
    }
  }

  /** An unsafe header is garbled in the source, or in what is stored for it. */
  lemma {:induction false} UnsafeStored(lines: seq<string>, line: nat, blocks: seq<Block>, pending: seq<string>, order: nat,
                                        sections: seq<Section>)
    requires blocks != [] && sections != [] && PlainLines(lines) && TidyLines(lines) && LinesAgree(lines) && !SafeHeaders(lines)
    requires ScanFrom(lines, line, blocks, pending, order).Ok? && SectionsFrom(lines, sections).Some?
    ensures AnyGarbled(SectionsFrom(lines, sections).value)
      || AnyGarbled(Sections(ScanFrom(lines, line, blocks, pending, order).value.blocks))
    decreases |lines|
  {
    hide IsFiller, ScanLine, TomlLine, ConstructLength, ConstructAgrees, ConsumeKv, Trim, HeaderName, NormaliseHeader, EndOfLine, AnyBlank, ReadStatement,
      ReadHeader, HeaderSafe, HeaderPlain, Sections, AddStatement, AnyGarbled, TidyKv, NoMark;
    var raw := lines[0];
    if IsFiller(raw) {
      UnsafeStored(lines[1..], line + 1, blocks, pending + [raw], order, sections);
    } else if ScanLine(raw, 0, Outside).eq < 0 {
      var b := Block(HeaderName(Trim(raw)), Some(Header(NormaliseHeader(Trim(raw)) + EndOfLine(raw), pending)), []);
      var s := Section(HeadingOf(raw), []);
      SameEq(lines);
      if ReadHeader(raw).None? {
        MoreGarbled(sections, s);
        GarbledStays(lines[1..], sections + [s]);
      } else if !HeaderSafe(Trim(raw)) {
        HeaderRead(raw);
        PlainEnd(raw);
        assert NormaliseHeader(Trim(raw)) + "" == NormaliseHeader(Trim(raw));
        SectionsAddBlock(blocks, b);
        MoreGarbled(Sections(blocks), Section(HeadingOf(b.header.value.line), []));
        GarbledStored(lines[1..], line + 1, blocks + [b], [], order);
      } else {
        UnsafeStored(lines[1..], line + 1, blocks + [b], [], order, sections + [s]);
      }
    } else {
      SameEq(lines);
      SameOutcome(lines, line);
      SameLength(lines, line);
      ConsumeLength(lines, line);
      var c := ConsumeKv(lines, line).value;
      var kv := Kv(c.key, c.lines, pending, AnyBlank(pending), order);
      UnsafeStored(lines[|c.lines|..], line + |c.lines|, AddKv(blocks, kv), [], order + 1,
                   AddStatement(sections, ReadStatement(lines)));
    }
  }

  lemma GarbledOrdered(blocks: seq<Block>)
    requires AnyGarbled(Sections(blocks))
    ensures AnyGarbled(Sections(OrderBlocks(blocks)))
  {
    hide SectionOf, SectionRank;
    var sorted := OrderBlocks(blocks);
    Sorting.StableSortCorrect(blocks, (b: Block) => SectionRank(b.name));
    var i :| 0 <= i < |blocks| && Sections(blocks)[i].heading.Garbled?;
    assert blocks[i] in multiset(blocks) && blocks[i] in multiset(sorted);
    var j :| 0 <= j < |sorted| && sorted[j] == blocks[i];
    assert Sections(sorted)[j].heading.Garbled?;
  }

  lemma UnsafeLayout<V>(lines: seq<string>, reader: Reader<V>)
    requires PlainLines(lines) && TidyLines(lines) && LinesAgree(lines) && !SafeHeaders(lines) && MeaningOfLines(lines, reader).Some?
    ensures LayoutLines(lines).Ok? && MeaningOfLines(LayoutLines(lines).value, reader) == None
  {
    hide ScanFrom, Evaluate, EvaluateSections, OrderBlocks, RenderLines, TidyLines, BlocksOk, Kept, SafeHeaders,
      SectionsFrom, Sections, AnyGarbled, TrailerLines, LinesAgree, AllAgree;
    RootAgrees();
    var root := [Section(Top, [])];
    AcceptedScans(lines, root, 1, [ROOT], [], 0);
    UnsafeStored(lines, 1, [ROOT], [], 0, root);
    if AnyGarbled(SectionsFrom(lines, root).value) {
      GarbledFails(map[], SectionsFrom(lines, root).value, reader);
    }
    RootOk();
    ScanOk(lines, 1, [ROOT], [], 0);
    ScanAgrees(lines, 1, [ROOT], [], 0);
    var doc := ScanFrom(lines, 1, [ROOT], [], 0).value;
    var blocks := OrderBlocks(doc.blocks);
    OrderBlocksCorrect(doc.blocks);
    RescanDocument(blocks, doc.trailer);
    OrderAgrees(doc.blocks);
    RenderKept(blocks, doc.trailer);
    ScannedMeaning(RenderLines(blocks, doc.trailer, ""), reader);
    RereadSections(blocks, true, 0);
    EvaluateBlocks(map[], RereadBlocks(blocks, true, 0), reader);
    EvaluateBlocks(map[], Laid(blocks), reader);
    EvaluateLaid(map[], blocks, reader);
    EvaluateBlocks(map[], blocks, reader);
    GarbledOrdered(doc.blocks);
    GarbledFails(map[], Sections(blocks), reader);
  }

  /** A regular document that TOML accepts is refused whenever one of its headers is not safe. */
  lemma UnsafeHeaderRefused<V>(parse: string -> Option<DeepEqual.Value>, reader: Reader<V>,
                               data: Fields<V> -> DeepEqual.Data, source: string)
    requires Regular(source) && LinesAgree(Split(Body(source), '\n')) && !SafeHeaders(Split(Body(source), '\n'))
    requires parse(Body(source)).Some? && Reads(parse, reader, data, Body(source))
    requires Layout(source).Ok? ==> Reads(parse, reader, data, Body(Layout(source).value))
    ensures FormatToml(parse, DeepEqual.DeepEqual, source) == Err(EmitsInvalid)
  {
    hide ScanFrom, TidyLines, PlainLines, Split, Join, SafeHeaders, LinesAgree, Layout, Body, MeaningOfLines, NoMark, LayoutLines,
      DeepEqual.DeepEqual, DeepEqual.DataOf, DeepEqual.WellFormed;
    var lines := Split(Body(source), '\n');
    UnsafeLayout(lines, reader);
    LayoutByLines(source);
    var out := LayoutLines(lines).value;
    LayoutLinesPlain(lines);
    MeaningOfRendered(out, reader);
    BodyOfOutput(source, out);
    AcceptedBody(source);
  }
}
