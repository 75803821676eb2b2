/** The edges of `formatToml`: the byte order mark, and the line an error names. */
module FormatEdges {
  import opened JsText
  import opened Wrappers
  import opened FormatScan
  import opened FormatDoc
  import opened FormatConservation

  // ----- The byte order mark -----

  lemma MarkedBody(body: string)
    requires body == "" || body[0] != '\U{FEFF}'
    ensures Body(['\U{FEFF}'] + body) == body == Body(body)
  {
  }

  lemma MarkedLayout(body: string)
    requires body == "" || body[0] != '\U{FEFF}'
    ensures Layout(['\U{FEFF}'] + body) ==
      match Layout(body) case Err(e) => Err(e) case Ok(output) => Ok(['\U{FEFF}'] + output)
  {
    hide ScanDocument, Render, OrderBlocks, Eol, Body;
    MarkedBody(body);
  }

  /** A byte order mark stays, and everything else is as without it. */
  lemma MarkStays<D>(parse: string -> Option<D>, deepEqual: (D, D) -> bool, body: string)
    requires body == "" || body[0] != '\U{FEFF}'
    ensures FormatToml(parse, deepEqual, ['\U{FEFF}'] + body) ==
      match FormatToml(parse, deepEqual, body)
      case Err(e) => Err(e)
      case Ok(f) => Ok(Formatted(['\U{FEFF}'] + f.output, f.changed))
  {
    hide Layout, Body;
    MarkedBody(body);
    MarkedLayout(body);
    if Layout(body).Ok? {
      var output := Layout(body).value;
      assert (['\U{FEFF}'] + output)[1..] == output;
      assert (['\U{FEFF}'] + body)[1..] == body;
    }
  }

  // ----- The line an error names -----

  /** Neither a comment nor blank, without a separator, and no header. */
  predicate IsUnsupported(raw: string) {
    Trim(raw) != "" && Trim(raw)[0] != '#' && Trim(raw)[0] != '[' && ScanLine(raw, 0, Outside).eq < 0
  }

  /** The state in front of line `k`, when `lines[0]` starts a key/value. */
  function StateAt(lines: seq<string>, k: nat): Walked
    requires k <= |lines|
  {
    if k == 0 then FRESH
    else ScanLine(lines[k - 1], StateAt(lines, k - 1).depth, StateAt(lines, k - 1).multiline)
  }

  /** A key/value whose brackets and multi-line strings are never all closed at the end of a line. */
  ghost predicate IsUnterminated(lines: seq<string>) {
    && lines != [] && Trim(lines[0]) != "" && Trim(lines[0])[0] != '#' && ScanLine(lines[0], 0, Outside).eq >= 0
    && forall k | 0 < k <= |lines| :: StateAt(lines, k).depth > 0 || StateAt(lines, k).multiline != Outside
  }

  lemma {:induction false} NeverCloses(lines: seq<string>, k: nat, m: nat)
    requires 0 < k <= m <= |lines| && Continue(lines[k..], StateAt(lines, k).depth, StateAt(lines, k).multiline).None?
    ensures StateAt(lines, m).depth > 0 || StateAt(lines, m).multiline != Outside
    decreases m - k
  {
    hide ScanLine;
    if k < m {
      assert lines[k..][1..] == lines[k + 1..] && lines[k..][0] == lines[k];
      NeverCloses(lines, k + 1, m);
    }
  }

  lemma UnterminatedMeans(lines: seq<string>, line: nat)
    requires lines != [] && !IsFiller(lines[0]) && ScanLine(lines[0], 0, Outside).eq >= 0 && ConsumeKv(lines, line).Err?
    ensures IsUnterminated(lines) && ConsumeKv(lines, line) == Err(Unterminated(line))
  {
    hide ScanLine, Continue, NormaliseFirstLine, NormaliseKey, Trim;
    assert StateAt(lines, 0) == FRESH;
    assert StateAt(lines, 1) == ScanLine(lines[0], 0, Outside);
    forall m | 0 < m <= |lines| ensures StateAt(lines, m).depth > 0 || StateAt(lines, m).multiline != Outside {
      NeverCloses(lines, 1, m);
    }
  }

  lemma {:induction false} ErrorAt(lines: seq<string>, line: nat, blocks: seq<Block>, pending: seq<string>, order: nat)
    returns (k: nat)
    requires blocks != [] && ScanFrom(lines, line, blocks, pending, order).Err?
    ensures k < |lines|
    ensures match ScanFrom(lines, line, blocks, pending, order).error
      case Unsupported(n) => n == line + k && IsUnsupported(lines[k])
      case Unterminated(n) => n == line + k && IsUnterminated(lines[k..])
    decreases |lines|
  {
    hide *;
    ScanStart(lines, line, blocks, pending, order);
    if IsFiller(lines[0]) {
      FillerStep(lines, line, blocks, pending, order);
      k := ErrorAt(lines[1..], line + 1, blocks, pending + [lines[0]], order);
      Behind(lines, 1, k);
      k := k + 1;
    } else if ScanLine(lines[0], 0, Outside).eq < 0 {
      if Trim(lines[0])[0] == '[' {
        HeaderStep(lines, line, blocks, pending, order);
        var b := Block(HeaderName(Trim(lines[0])),
                       Some(Header(NormaliseHeader(Trim(lines[0])) + EndOfLine(lines[0]), pending)), []);
        k := ErrorAt(lines[1..], line + 1, blocks + [b], [], order);
        Behind(lines, 1, k);
        k := k + 1;
      } else {
        k := 0;
      }
    } else if ConsumeKv(lines, line).Err? {
      k := 0;
      UnterminatedMeans(lines, line);
      assert lines[0..] == lines;
    } else {
      var kv := StoredKv(lines, line, blocks, pending, order);
      AddKvPieces(blocks, kv);
      k := ErrorAt(lines[|kv.lines|..], line + |kv.lines|, AddKv(blocks, kv), [], order + 1);
      Behind(lines, |kv.lines|, k);
      k := k + |kv.lines|;
    }
  }

  lemma Behind(lines: seq<string>, n: nat, k: nat)
    requires n <= |lines| && k < |lines[n..]|
    ensures n + k < |lines| && lines[n..][k] == lines[n + k] && lines[n..][k..] == lines[n + k..]
  {
  }

  lemma ScanStart(lines: seq<string>, line: nat, blocks: seq<Block>, pending: seq<string>, order: nat)
    requires blocks != [] && ScanFrom(lines, line, blocks, pending, order).Err?
    ensures lines != []
    ensures IsFiller(lines[0]) <==> Trim(lines[0]) == "" || Trim(lines[0])[0] == '#'
    ensures !IsFiller(lines[0]) && ScanLine(lines[0], 0, Outside).eq < 0 && Trim(lines[0])[0] != '[' ==>
      IsUnsupported(lines[0]) && ScanFrom(lines, line, blocks, pending, order) == Err(Unsupported(line))
    ensures !IsFiller(lines[0]) && ScanLine(lines[0], 0, Outside).eq >= 0 && ConsumeKv(lines, line).Err? ==>
      ScanFrom(lines, line, blocks, pending, order) == Err(ConsumeKv(lines, line).error)
  {
    hide ScanLine, ConsumeKv, Trim, NormaliseHeader, HeaderName, AddKv, AnyBlank;
  }

  /** The line an error names is one that TOML cannot start, or starts a key/value that never ends. */
  lemma ErrorNamesLine(source: string)
    requires ScanDocument(source).Err?
    ensures var lines := Split(source, '\n');
      match ScanDocument(source).error
      case Unsupported(n) => 1 <= n <= |lines| && IsUnsupported(lines[n - 1])
      case Unterminated(n) => 1 <= n <= |lines| && IsUnterminated(lines[n - 1..])
  {
    hide ScanFrom, IsUnsupported, IsUnterminated, Split;
    var k := ErrorAt(Split(source, '\n'), 1, [ROOT], [], 0);
  }
}
