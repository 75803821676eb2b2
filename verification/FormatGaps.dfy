/**
 The blank lines and comments of the output: one blank line in front of every section but
 the first, one in front of a key/value where the source has any, and every comment line
 as it was, without the blanks at its end; and the spaces around a `=`.
 */
module FormatGaps {
  import opened JsText
  import opened Wrappers
  import opened FormatScan
  import opened FormatDoc
  import opened FormatConservation
  import Sorting

  // ----- Comment lines -----

  predicate NoBlankAtEnd(s: string) {
    s == "" || (s[|s| - 1] != ' ' && s[|s| - 1] != '\t')
  }

  lemma {:induction false} BlanksStripped(s: string) returns (blanks: string)
    ensures s == StripBlanks(s) + blanks && NoBlankAtEnd(StripBlanks(s))
    ensures forall c | c in blanks :: c == ' ' || c == '\t'
  {
    if s != "" && IsBlank(s[|s| - 1]) {
      var front := BlanksStripped(s[..|s| - 1]);
      blanks := front + [s[|s| - 1]];
      assert s == StripBlanks(s[..|s| - 1]) + front + [s[|s| - 1]];
    } else {
      blanks := "";
    }
  }

  /** What stripping a line takes away: the spaces and tabs in front of its end, and nothing else. */
  lemma LineStripped(line: string) returns (text: string, blanks: string, end: string)
    ensures line == text + blanks + end && RstripWs(line) == text + end && NoBlankAtEnd(text)
    ensures forall c | c in blanks :: c == ' ' || c == '\t'
    ensures end == if line != "" && line[|line| - 1] == '\r' then "\r" else ""
  {
    hide StripBlanks;
    if line != "" && line[|line| - 1] == '\r' {
      var front := line[..|line| - 1];
      blanks := BlanksStripped(front);
      text, end := StripBlanks(front), "\r";
      assert line == front + "\r";
    } else {
      blanks := BlanksStripped(line);
      text, end := StripBlanks(line), "";
    }
  }

  lemma BlankStaysBlank(line: string)
    ensures Trim(RstripWs(line)) == "" <==> Trim(line) == ""
  {
    var text, blanks, end := LineStripped(line);
    hide RstripWs;
    TrimmedToNothing(line);
    TrimmedToNothing(text + end);
    assert forall c | c in line :: c in text || c in blanks || c in end;
    assert forall c | c in text + end :: c in line;
  }

  lemma TrimmedToNothing(s: string)
    ensures Trim(s) == "" <==> forall c | c in s :: IsSpace(c)
  {
    TrimStartShape(s);
    var t := TrimStart(s);
    TrimEndShape(t);
    assert forall c | c in t :: c in s;
    assert s == s[..|s| - |t|] + t;
  }

  /** `at` lists the lines that are not blank, in order. */
  ghost predicate Comments(leading: seq<string>, at: seq<nat>) {
    && (forall k | 0 <= k < |at| :: at[k] < |leading| && Trim(leading[at[k]]) != "")
    && (forall j, k | 0 <= j < k < |at| :: at[j] < at[k])
    && forall n | 0 <= n < |leading| && Trim(leading[n]) != "" :: n in at
  }

  function Moved(behind: seq<nat>): (r: seq<nat>)
    ensures |r| == |behind| && forall k | 0 <= k < |r| :: r[k] == behind[k] + 1
  {
    seq(|behind|, k requires 0 <= k < |behind| => behind[k] + 1)
  }

  lemma OneMoved(line: string, rest: seq<string>, behind: seq<nat>)
    requires Comments(rest, behind)
    ensures var at := Moved(behind);
      && (forall k | 0 <= k < |at| :: 0 < at[k] < |rest| + 1 && Trim(([line] + rest)[at[k]]) != "")
      && (forall j, k | 0 <= j < k < |at| :: at[j] < at[k])
  {
    hide Trim;
    assert forall k | 0 <= k < |behind| :: ([line] + rest)[behind[k] + 1] == rest[behind[k]];
  }

  lemma NoneMissed(line: string, rest: seq<string>, behind: seq<nat>, n: nat)
    requires Comments(rest, behind) && 0 < n <= |rest| && Trim(rest[n - 1]) != ""
    ensures n in Moved(behind)
  {
    hide Trim;
    var k :| 0 <= k < |behind| && behind[k] == n - 1;
    assert Moved(behind)[k] == n;
  }

  lemma OneMore(line: string, rest: seq<string>, behind: seq<nat>)
    requires Comments(rest, behind)
    ensures Comments([line] + rest, if Trim(line) == "" then Moved(behind) else [0] + Moved(behind))
  {
    hide Trim, Moved;
    OneMoved(line, rest, behind);
    var leading, moved := [line] + rest, Moved(behind);
    forall n | 0 < n < |leading| && Trim(leading[n]) != "" ensures n in moved {
      NoneMissed(line, rest, behind, n);
    }
    if Trim(line) != "" {
      ZeroInFront(leading, moved);
    }
  }

  lemma ZeroInFront(leading: seq<string>, moved: seq<nat>)
    requires leading != [] && Trim(leading[0]) != ""
    requires forall k | 0 <= k < |moved| :: 0 < moved[k] < |leading| && Trim(leading[moved[k]]) != ""
    requires forall j, k | 0 <= j < k < |moved| :: moved[j] < moved[k]
    requires forall n | 0 < n < |leading| && Trim(leading[n]) != "" :: n in moved
    ensures Comments(leading, [0] + moved)
  {
    hide Trim;
    var at := [0] + moved;
    assert forall k | 0 < k < |at| :: at[k] == moved[k - 1];
    forall n | 0 <= n < |leading| && Trim(leading[n]) != "" ensures n in at {
      assert n == 0 || n in moved;
    }
  }

  /** The lines in front of a construct that are not blank are written, in their order, stripped at the end. */
  lemma {:induction false} CommentsWritten(leading: seq<string>) returns (at: seq<nat>)
    ensures Comments(leading, at) && |Lead(leading)| == |at|
    ensures forall k | 0 <= k < |at| :: Lead(leading)[k] == RstripWs(leading[at[k]])
  {
    hide Trim, RstripWs, Comments, IsBlankLine;
    if leading == [] {
      at := [];
      NoComments();
    } else {
      var behind := CommentsWritten(leading[1..]);
      OneMore(leading[0], leading[1..], behind);
      assert [leading[0]] + leading[1..] == leading;
      var moved := Moved(behind);
      at := if Trim(leading[0]) == "" then moved else [0] + moved;
      CommentsIn(leading[1..], behind);
      LeadOfFirst(leading);
      assert forall k | 0 <= k < |moved| :: leading[moved[k]] == leading[1..][behind[k]];
    }
  }

  lemma NoComments()
    ensures Comments([], [])
  {
  }

  lemma CommentsIn(leading: seq<string>, at: seq<nat>)
    requires Comments(leading, at)
    ensures forall k | 0 <= k < |at| :: at[k] < |leading|
  {
    hide Trim;
  }

  lemma LeadOfFirst(leading: seq<string>)
    requires leading != []
    ensures Lead(leading)
      == (if Trim(leading[0]) == "" then [] else [RstripWs(leading[0])]) + Lead(leading[1..])
  {
    hide Trim, RstripWs;
    BlankStaysBlank(leading[0]);
  }

  /** The lines behind the last construct are written one by one. */
  lemma {:induction false} TrailerWritten(trailer: seq<string>)
    ensures |TrailerLines(trailer)| == |trailer|
    ensures forall k | 0 <= k < |trailer| :: TrailerLines(trailer)[k] == RstripWs(trailer[k])
  {
    hide RstripWs;
    if trailer != [] {
      TrailerWritten(trailer[1..]);
    }
  }

  // ----- Blank lines -----

  ghost predicate Spaced(kvs: seq<Kv>) {
    forall kv | kv in kvs :: kv.lines != [] && (kv.spaced <==> exists p | p in kv.leading :: Trim(p) == "")
  }

  ghost predicate AllSpaced(blocks: seq<Block>) {
    forall b | b in blocks :: Spaced(b.kvs)
  }

  /** A chunk with or without a blank line, when `first` says that it may be the first of the output. */
  ghost predicate Parted(c: Chunk, first: bool) {
    c.gap <==> !first && (c.piece.header || exists p | p in c.piece.leading :: Trim(p) == "")
  }

  ghost predicate AllParted(chunks: seq<Chunk>, bare: bool) {
    forall k | 0 <= k < |chunks| :: Parted(chunks[k], bare && k == 0)
  }

  lemma {:induction false} KvsParted(kvs: seq<Kv>, bare: bool)
    requires Spaced(kvs)
    ensures AllParted(KvChunks(kvs, bare), bare) && |KvChunks(kvs, bare)| == |kvs|
  {
    hide Lead, Trim;
    if kvs != [] {
      KvsParted(kvs[1..], false);
      assert KvLines(kvs[0], bare, "") != [];
      var rest := KvChunks(kvs[1..], false);
      var all := KvChunks(kvs, bare);
      assert forall k | 0 < k < |all| :: all[k] == rest[k - 1];
    }
  }

  lemma OrderedSpaced(b: Block)
    requires Spaced(b.kvs)
    ensures Spaced(OrderKvs(b)) && (OrderKvs(b) == [] <==> b.kvs == [])
  {
    hide OrderKvs;
    OrderKvsPermutes(b);
    assert multiset(OrderKvs(b)) == multiset(b.kvs);
    assert |multiset(OrderKvs(b))| == |OrderKvs(b)| && |multiset(b.kvs)| == |b.kvs|;
    forall kv | kv in OrderKvs(b) ensures kv in b.kvs {
      assert kv in multiset(OrderKvs(b));
    }
  }

  lemma BlockParted(b: Block, bare: bool)
    requires Spaced(b.kvs)
    ensures AllParted(BlockChunks(b, bare), bare)
    ensures BlockLines(b, bare, "") == [] <==> BlockChunks(b, bare) == []
  {
    hide OrderKvs, KvChunks, Lead, Trim, KvsLines;
    OrderedSpaced(b);
    KvsParted(OrderKvs(b), bare && b.header.None?);
    NoLines(OrderKvs(b), bare && b.header.None?);
  }

  lemma NoLines(kvs: seq<Kv>, bare: bool)
    requires Spaced(kvs)
    ensures KvsLines(kvs, bare, "") == [] <==> kvs == []
  {
    hide Lead, Trim;
  }

  lemma {:induction false} BlocksParted(blocks: seq<Block>, bare: bool)
    requires AllSpaced(blocks)
    ensures AllParted(BlocksChunks(blocks, bare), bare)
  {
    hide BlockChunks, BlockLines, Parted, Spaced;
    if blocks != [] {
      BlockParted(blocks[0], bare);
      var bare' := bare && BlockLines(blocks[0], bare, "") == [];
      BlocksParted(blocks[1..], bare');
      var front, rest := BlockChunks(blocks[0], bare), BlocksChunks(blocks[1..], bare');
      var all := front + rest;
      forall k | 0 <= k < |all| ensures Parted(all[k], bare && k == 0) {
        if k >= |front| {
          assert all[k] == rest[k - |front|];
          assert Parted(rest[k - |front|], bare' && k - |front| == 0);
        }
      }
    }
  }

  lemma AddSpaced(blocks: seq<Block>, kv: Kv)
    requires blocks != [] && AllSpaced(blocks) && Spaced([kv])
    ensures AddKv(blocks, kv) != [] && AllSpaced(AddKv(blocks, kv))
  {
    hide Trim;
    var last := blocks[|blocks| - 1];
    forall b | b in AddKv(blocks, kv) ensures Spaced(b.kvs) {
      if b !in blocks {
        assert b == last.(kvs := last.kvs + [kv]);
        assert last in blocks;
        assert kv in [kv];
      }
    }
  }

  lemma KvSpaced(kv: Kv)
    requires kv.lines != [] && kv.spaced == AnyBlank(kv.leading)
    ensures Spaced([kv])
  {
    hide Trim;
  }

  /** Every key/value a scan stores knows whether the source has a blank line in front of it. */
  lemma {:induction false} ScanSpaced(lines: seq<string>, line: nat, blocks: seq<Block>, pending: seq<string>,
                                      order: nat)
    requires blocks != [] && ScanFrom(lines, line, blocks, pending, order).Ok? && AllSpaced(blocks)
    ensures AllSpaced(ScanFrom(lines, line, blocks, pending, order).value.blocks)
    decreases |lines|
  {
    hide *;
    if lines == [] {
      ScanEnd(line, blocks, pending, order);
    } else if IsFiller(lines[0]) {
      FillerStep(lines, line, blocks, pending, order);
      ScanSpaced(lines[1..], line + 1, blocks, pending + [lines[0]], order);
    } else {
      ConstructRead(lines, line, blocks, pending, order);
      if ScanLine(lines[0], 0, Outside).eq < 0 {
        HeaderStep(lines, line, blocks, pending, order);
        var b := Block(HeaderName(Trim(lines[0])),
                       Some(Header(NormaliseHeader(Trim(lines[0])) + EndOfLine(lines[0]), pending)), []);
        HeaderSpaced(blocks, b);
        ScanSpaced(lines[1..], line + 1, blocks + [b], [], order);
      } else {
        var kv := StoredKv(lines, line, blocks, pending, order);
        KvSpaced(kv);
        AddSpaced(blocks, kv);
        ScanSpaced(lines[|kv.lines|..], line + |kv.lines|, AddKv(blocks, kv), [], order + 1);
      }
    }
  }

  lemma HeaderSpaced(blocks: seq<Block>, b: Block)
    requires AllSpaced(blocks) && b.kvs == []
    ensures AllSpaced(blocks + [b]) && blocks + [b] != []
  {
  }

  /**
   In the output a section has one blank line in front, whatever the source has, and a key/value
   has one if and only if the source has any there; only what is written first has none.
   */
  lemma BlankLinesMean(lines: seq<string>, eol: string)
    requires ScanFrom(lines, 1, [ROOT], [], 0).Ok?
    ensures var doc := ScanFrom(lines, 1, [ROOT], [], 0).value;
      var chunks := BlocksChunks(OrderBlocks(doc.blocks), true);
      && RenderLines(OrderBlocks(doc.blocks), doc.trailer, eol) == ChunksLines(chunks, eol) + TrailerLines(doc.trailer)
      && multiset(ChunkPieces(chunks)) == multiset(Pieces(doc.blocks))
      && (forall c | c in chunks ::
           ChunkLines(c, eol) == (if c.gap then [eol] else []) + Lead(c.piece.leading) + c.piece.lines)
      && forall k | 0 <= k < |chunks| ::
        (chunks[k].gap <==> k > 0 && (chunks[k].piece.header || exists p | p in chunks[k].piece.leading :: Trim(p) == ""))
  {
    hide ScanFrom, OrderBlocks, BlocksChunks, RenderLines, Pieces, Trim, Spaced;
    var doc := ScanFrom(lines, 1, [ROOT], [], 0).value;
    RenderKeepsAll(doc.blocks, doc.trailer, eol);
    NothingStored();
    ScanSpaced(lines, 1, [ROOT], [], 0);
    OrderBlocksPermutes(doc.blocks);
    forall b | b in OrderBlocks(doc.blocks) ensures b in doc.blocks {
      assert b in multiset(OrderBlocks(doc.blocks));
    }
    BlocksParted(OrderBlocks(doc.blocks), true);
  }

  lemma NothingStored()
    ensures AllSpaced([ROOT])
  {
  }

  // ----- First lines -----

  lemma {:induction false} SpacesTrimmed(w: string, v: string)
    requires (forall c | c in w :: IsSpace(c)) && (v == "" || !IsSpace(v[0]))
    ensures TrimStart(w + v) == v
  {
    if w == "" {
      assert w + v == v;
    } else {
      assert (w + v)[1..] == w[1..] + v;
      SpacesTrimmed(w[1..], v);
    }
  }

  lemma {:induction false} BlanksCut(v: string, w: string)
    requires NoBlankAtEnd(v) && forall c | c in w :: c == ' ' || c == '\t'
    ensures StripBlanks(v + w) == v
    decreases |w|
  {
    if w == "" {
      assert v + w == v;
    } else {
      assert w[|w| - 1] in w && (v + w)[|v + w| - 1] == w[|w| - 1];
      var front := w[..|w| - 1];
      forall c | c in front ensures c == ' ' || c == '\t' {
        assert c in w;
      }
      assert (v + w)[..|v + w| - 1] == v + front;
      BlanksCut(v, front);
    }
  }

  lemma EndCut(v: string, w: string, end: string)
    requires NoBlankAtEnd(v) && (forall c | c in w :: c == ' ' || c == '\t')
    requires end == "\r" || (end == "" && (v + w == "" || (v + w)[|v + w| - 1] != '\r'))
    ensures RstripWs(v + w + end) == v + end
  {
    BlanksCut(v, w);
    assert v + w + "" == v + w;
    assert (v + w + end)[..|v + w|] == v + w;
  }

  /**
   The first line of a key/value whose value closes is written as `key = value`, with one space
   on each side of the `=`, whatever stood there, and one in front of a comment.
   */
  lemma FirstLineWritten(key: string, before: string, value: string, behind: string, comment: string)
    requires forall c | c in before :: IsSpace(c)
    requires forall c | c in behind :: c == ' ' || c == '\t'
    requires (value == "" || !IsSpace(value[0])) && NoBlankAtEnd(value) && (value == "" ==> behind == "")
    requires value == "" || value[|value| - 1] != '\r'
    ensures var raw := key + "=" + before + value + behind;
      && NormaliseFirstLine(raw, |key|, -1, false) == NormaliseKey(key) + " = " + NormalizeQuotes(value)
      && (comment != "" ==>
            NormaliseFirstLine(raw + comment, |key|, |raw|, false)
              == NormaliseKey(key) + " = " + NormalizeQuotes(value) + " " + RstripWs(comment))
  {
    hide NormaliseKey, NormalizeQuotes, TrimStart, RstripWs, IsSpace, NoBlankAtEnd;
    var raw := key + "=" + before + value + behind;
    var tail := before + value + behind;
    assert raw[..|key|] == key && raw[|key| + 1..] == tail;
    assert tail == before + (value + behind);
    SpacesTrimmed(before, value + behind);
    EndCut(value, behind, "") by {
      LastIsNoReturn(value, behind);
    }
    assert value + behind + "" == value + behind && value + "" == value;
    var line := NormaliseKey(key) + " = " + NormalizeQuotes(value);
    assert line + "" == line;
    if comment != "" {
      var l := raw + comment;
      assert l[..|key|] == key && l[|key| + 1..|raw|] == tail && l[|raw|..] == comment;
      assert line + (" " + RstripWs(comment)) == line + " " + RstripWs(comment);
    }
  }

  lemma LastIsNoReturn(value: string, behind: string)
    requires value == "" || value[|value| - 1] != '\r'
    requires forall c | c in behind :: c == ' ' || c == '\t'
    ensures value + behind == "" || (value + behind)[|value + behind| - 1] != '\r'
  {
    if behind != "" {
      assert behind[|behind| - 1] in behind;
    } else {
      assert value + behind == value;
    }
  }
}
