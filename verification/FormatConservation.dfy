/**
 Nothing is lost between scanning and rendering: every header, key/value and
 comment line of the source appears exactly once, and comments stay in front of
 the construct they introduce.
 */
module FormatConservation {
  import opened JsText
  import opened Wrappers
  import opened FormatScan
  import opened FormatDoc
  import Sorting

  /** Source lines: the comment and blank lines in front of a construct, and the construct. */
  datatype Segment = Segment(leading: seq<string>, lines: seq<string>)

  /** The same for rewritten lines, and whether the construct is a header. */
  datatype Piece = Piece(header: bool, leading: seq<string>, lines: seq<string>)

  /** Cuts the source lines into segments the way the scan does. */
  function Segments(lines: seq<string>, pending: seq<string>): seq<Segment>
    decreases |lines|
  {
    if lines == [] then []
    else if IsFiller(lines[0]) then Segments(lines[1..], pending + [lines[0]])
    else if ScanLine(lines[0], 0, Outside).eq < 0 then
      [Segment(pending, [lines[0]])] + Segments(lines[1..], [])
    else
      match ConsumeKv(lines, 0)
      case Err(_) => []
      case Ok(consumed) =>
        ConsumeLength(lines, 0);
        var n := |consumed.lines|;
        [Segment(pending, lines[..n])] + Segments(lines[n..], [])
  }

  function SourceLines(segments: seq<Segment>): seq<string> {
    if segments == [] then [] else segments[0].leading + segments[0].lines + SourceLines(segments[1..])
  }

  /** A construct of the source in its normal form. */
  function Rewritten(s: Segment): Piece
    requires s.lines != []
  {
    if ScanLine(s.lines[0], 0, Outside).eq < 0 then
      Piece(true, s.leading, [NormaliseHeader(Trim(s.lines[0])) + EndOfLine(s.lines[0])])
    else
      match ConsumeKv(s.lines, 0)
      case Ok(consumed) => Piece(false, s.leading, consumed.lines)
      case Err(_) => Piece(false, s.leading, [])
  }

  function RewrittenAll(segments: seq<Segment>): seq<Piece>
    requires forall s | s in segments :: s.lines != []
  {
    if segments == [] then [] else [Rewritten(segments[0])] + RewrittenAll(segments[1..])
  }

  function KvPieces(kvs: seq<Kv>): seq<Piece> {
    if kvs == [] then [] else [Piece(false, kvs[0].leading, kvs[0].lines)] + KvPieces(kvs[1..])
  }

  function HeaderPieces(header: Option<Header>): seq<Piece> {
    match header
    case None => []
    case Some(h) => [Piece(true, h.leading, [h.line])]
  }

  /** Everything the blocks hold, in block order. */
  function Pieces(blocks: seq<Block>): seq<Piece> {
    if blocks == [] then []
    else HeaderPieces(blocks[0].header) + KvPieces(blocks[0].kvs) + Pieces(blocks[1..])
  }

  // ----- Scanning -----

  lemma {:induction false} ContinuePrefix(rest: seq<string>, depth: nat, multiline: Multiline)
    requires Continue(rest, depth, multiline).Some?
    ensures var lines := Continue(rest, depth, multiline).value;
      |lines| <= |rest| && Continue(rest[..|lines|], depth, multiline) == Some(lines)
  {
    hide ScanLine, NormaliseContinuation;
    ContinueLength(rest, depth, multiline);
    if !(depth == 0 && multiline == Outside) {
      var after := ScanLine(rest[0], depth, multiline);
      ContinuePrefix(rest[1..], after.depth, after.multiline);
      var n := |Continue(rest, depth, multiline).value|;
      assert rest[..n][1..] == rest[1..][..n - 1];
    }
  }

  lemma ConsumePrefix(lines: seq<string>, line: nat)
    requires lines != [] && ConsumeKv(lines, line).Ok?
    ensures var c := ConsumeKv(lines, line).value; var n := |c.lines|;
      0 < n <= |lines| && ConsumeKv(lines[..n], 0) == Ok(c) && ConsumeKv(lines, 0) == Ok(c)
  {
    hide Walk, NormaliseFirstLine, NormaliseKey, Continue;
    ConsumeLength(lines, line);
    var n := |ConsumeKv(lines, line).value.lines|;
    var scan := ScanLine(lines[0], 0, Outside);
    ContinuePrefix(lines[1..], scan.depth, scan.multiline);
    assert lines[..n][1..] == lines[1..][..n - 1];
  }

  lemma {:induction false} PiecesConcat(a: seq<Block>, b: seq<Block>)
    ensures Pieces(a + b) == Pieces(a) + Pieces(b)
  {
    hide HeaderPieces, KvPieces;
    if a == [] {
      assert a + b == b;
    } else {
      assert (a + b)[1..] == a[1..] + b && (a + b)[0] == a[0];
      PiecesConcat(a[1..], b);
      var h, k, x, y := HeaderPieces(a[0].header), KvPieces(a[0].kvs), Pieces(a[1..]), Pieces(b);
      assert h + k + (x + y) == (h + k + x) + y;
    }
  }

  lemma {:induction false} KvPiecesConcat(a: seq<Kv>, b: seq<Kv>)
    ensures KvPieces(a + b) == KvPieces(a) + KvPieces(b)
  {
    if a == [] {
      assert a + b == b;
    } else {
      assert (a + b)[1..] == a[1..] + b;
      KvPiecesConcat(a[1..], b);
    }
  }

  lemma PiecesOfOne(b: Block)
    ensures Pieces([b]) == HeaderPieces(b.header) + KvPieces(b.kvs)
  {
    assert [b][1..] == [];
  }

  lemma AddKvPieces(blocks: seq<Block>, kv: Kv)
    requires blocks != []
    ensures AddKv(blocks, kv) != []
    ensures Pieces(AddKv(blocks, kv)) == Pieces(blocks) + [Piece(false, kv.leading, kv.lines)]
  {
    hide Pieces, KvPieces, HeaderPieces;
    var front, last := blocks[..|blocks| - 1], blocks[|blocks| - 1];
    var h, k, p := HeaderPieces(last.header), KvPieces(last.kvs), [Piece(false, kv.leading, kv.lines)];
    assert blocks == front + [last];
    PiecesConcat(front, [last]);
    PiecesConcat(front, [last.(kvs := last.kvs + [kv])]);
    PiecesOfOne(last);
    PiecesOfOne(last.(kvs := last.kvs + [kv]));
    KvPiecesConcat(last.kvs, [kv]);
    PiecesOfKv(kv);
    assert Pieces(front) + (h + (k + p)) == (Pieces(front) + (h + k)) + p;
  }

  lemma PiecesOfKv(kv: Kv)
    ensures KvPieces([kv]) == [Piece(false, kv.leading, kv.lines)]
  {
    assert [kv][1..] == [];
  }

  ghost predicate WellCut(segments: seq<Segment>) {
    forall s | s in segments ::
      s.lines != [] && !IsFiller(s.lines[0]) && forall p | p in s.leading :: IsFiller(p)
  }

  lemma {:induction false} SegmentsWellCut(lines: seq<string>, pending: seq<string>)
    requires forall p | p in pending :: IsFiller(p)
    ensures WellCut(Segments(lines, pending))
    decreases |lines|
  {
    hide ScanLine, ConsumeKv, IsFiller;
    if lines != [] {
      if IsFiller(lines[0]) {
        SegmentsWellCut(lines[1..], pending + [lines[0]]);
      } else if ScanLine(lines[0], 0, Outside).eq < 0 {
        SegmentsWellCut(lines[1..], []);
      } else if ConsumeKv(lines, 0).Ok? {
        ConsumeLength(lines, 0);
        SegmentsWellCut(lines[|ConsumeKv(lines, 0).value.lines|..], []);
      }
    }
  }

  /** The item the scan stores for the key/value construct in front of it. */
  lemma StoredKv(lines: seq<string>, line: nat, blocks: seq<Block>, pending: seq<string>, order: nat) returns (kv: Kv)
    requires blocks != [] && lines != [] && !IsFiller(lines[0]) && ScanLine(lines[0], 0, Outside).eq >= 0
    requires ConsumeKv(lines, line).Ok?
    ensures ConsumeKv(lines, 0) == ConsumeKv(lines, line) == Ok(Consumed(kv.key, kv.lines))
    ensures 0 < |kv.lines| <= |lines| && kv.leading == pending && kv.spaced == AnyBlank(pending)
    ensures Rewritten(Segment(pending, lines[..|kv.lines|])) == Piece(false, kv.leading, kv.lines)
    ensures ScanFrom(lines, line, blocks, pending, order)
         == ScanFrom(lines[|kv.lines|..], line + |kv.lines|, AddKv(blocks, kv), [], order + 1)
  {
    hide ScanFrom, ScanLine, ConsumeKv, IsFiller, AddKv, IsBlankLine;
    ConsumePrefix(lines, line);
    var consumed := ConsumeKv(lines, line).value;
    kv := Kv(consumed.key, consumed.lines, pending, AnyBlank(pending), order);
    KvStep(lines, |kv.lines|, line, blocks, pending, order, kv);
  }

  /** One construct read: what is cut off, what is stored, and where the scan goes on. */
  lemma NextConstruct(lines: seq<string>, line: nat, blocks: seq<Block>, pending: seq<string>, order: nat)
    returns (n: nat, next: seq<Block>, k: nat)
    requires blocks != [] && lines != [] && !IsFiller(lines[0])
    requires ScanFrom(lines, line, blocks, pending, order).Ok?
    ensures 0 < n <= |lines| && next != []
    ensures ScanFrom(lines, line, blocks, pending, order) == ScanFrom(lines[n..], line + n, next, [], k)
    ensures Segments(lines, pending) == [Segment(pending, lines[..n])] + Segments(lines[n..], [])
    ensures Pieces(next) == Pieces(blocks) + [Rewritten(Segment(pending, lines[..n]))]
  {
    hide ScanFrom, ScanLine, ConsumeKv, IsFiller, Trim, NormaliseHeader, HeaderName, AddKv, IsBlankLine, Pieces;
    ConstructRead(lines, line, blocks, pending, order);
    if ScanLine(lines[0], 0, Outside).eq < 0 {
      HeaderStep(lines, line, blocks, pending, order);
      var b := Block(HeaderName(Trim(lines[0])),
                     Some(Header(NormaliseHeader(Trim(lines[0])) + EndOfLine(lines[0]), pending)), []);
      n, k, next := 1, order, blocks + [b];
      PiecesConcat(blocks, [b]);
      PiecesOfOne(b);
      assert lines[..1] == [lines[0]];
    } else {
      var kv := StoredKv(lines, line, blocks, pending, order);
      n, k, next := |kv.lines|, order + 1, AddKv(blocks, kv);
      AddKvPieces(blocks, kv);
    }
  }

  lemma SegmentsStart(lines: seq<string>, pending: seq<string>)
    ensures lines == [] ==> SourceLines(Segments(lines, pending)) == []
    ensures lines != [] && IsFiller(lines[0]) ==> Segments(lines, pending) == Segments(lines[1..], pending + [lines[0]])
  {
  }

  /** The text of the segments and the trailer is the source: no gap and no overlap. */
  lemma {:induction false} SegmentsCover(lines: seq<string>, line: nat, blocks: seq<Block>, pending: seq<string>,
                                         order: nat)
    requires blocks != [] && ScanFrom(lines, line, blocks, pending, order).Ok?
    ensures SourceLines(Segments(lines, pending)) + ScanFrom(lines, line, blocks, pending, order).value.trailer
         == pending + lines
    decreases |lines|
  {
    hide *;
    SegmentsStart(lines, pending);
    if lines == [] {
      ScanEnd(line, blocks, pending, order);
      assert pending + lines == pending;
    } else if IsFiller(lines[0]) {
      FillerStep(lines, line, blocks, pending, order);
      SegmentsCover(lines[1..], line + 1, blocks, pending + [lines[0]], order);
      assert pending + [lines[0]] + lines[1..] == pending + lines;
    } else {
      var n, next, k := NextConstruct(lines, line, blocks, pending, order);
      SegmentsCover(lines[n..], line + n, next, [], k);
      var rest := Segments(lines[n..], []);
      SourceOfFirst(Segment(pending, lines[..n]), rest);
      CoverStep(pending, lines, n, SourceLines(rest), ScanFrom(lines[n..], line + n, next, [], k).value.trailer);
    }
  }

  lemma CoverStep(pending: seq<string>, lines: seq<string>, n: nat, rest: seq<string>, trailer: seq<string>)
    requires n <= |lines| && rest + trailer == [] + lines[n..]
    ensures pending + lines[..n] + rest + trailer == pending + lines
  {
    assert lines == lines[..n] + lines[n..];
    assert pending + lines[..n] + rest + trailer == pending + lines[..n] + (rest + trailer);
  }

  /** Every segment is stored, rewritten, in source order. */
  lemma {:induction false} SegmentsStored(lines: seq<string>, line: nat, blocks: seq<Block>, pending: seq<string>,
                                          order: nat)
    requires blocks != [] && ScanFrom(lines, line, blocks, pending, order).Ok?
    requires WellCut(Segments(lines, pending))
    ensures Pieces(ScanFrom(lines, line, blocks, pending, order).value.blocks)
         == Pieces(blocks) + RewrittenAll(Segments(lines, pending))
    decreases |lines|
  {
    hide ScanFrom, IsFiller, Pieces, Rewritten, Segments, RewrittenAll, WellCut, AddKv;
    FirstSegments(lines, pending);
    if lines == [] {
      ScanEnd(line, blocks, pending, order);
      NothingRewritten();
      assert Pieces(blocks) + [] == Pieces(blocks);
    } else if IsFiller(lines[0]) {
      FillerStep(lines, line, blocks, pending, order);
      SegmentsStored(lines[1..], line + 1, blocks, pending + [lines[0]], order);
    } else {
      var n, next, k := NextConstruct(lines, line, blocks, pending, order);
      var s, rest := Segment(pending, lines[..n]), Segments(lines[n..], []);
      WellCutRest(s, rest);
      WellCutLines(s, rest);
      SegmentsStored(lines[n..], line + n, next, [], k);
      RewrittenFirst(s, rest);
      assert Pieces(blocks) + [Rewritten(s)] + RewrittenAll(rest) == Pieces(blocks) + ([Rewritten(s)] + RewrittenAll(rest));
    }
  }

  lemma FirstSegments(lines: seq<string>, pending: seq<string>)
    ensures lines == [] ==> Segments(lines, pending) == []
    ensures lines != [] && IsFiller(lines[0]) ==>
      Segments(lines, pending) == Segments(lines[1..], pending + [lines[0]])
  {
    hide IsFiller, ScanLine, ConsumeKv;
  }

  lemma NothingRewritten()
    ensures RewrittenAll([]) == []
  {
  }

  lemma WellCutLines(s: Segment, rest: seq<Segment>)
    requires WellCut([s] + rest)
    ensures s.lines != [] && forall t | t in rest :: t.lines != []
  {
    hide IsFiller;
    assert s in [s] + rest;
    forall t | t in rest ensures t.lines != [] {
      assert t in [s] + rest;
    }
  }

  lemma WellCutRest(s: Segment, rest: seq<Segment>)
    requires WellCut([s] + rest)
    ensures WellCut(rest)
  {
    hide IsFiller;
    forall t | t in rest ensures t in [s] + rest { }
  }

  lemma SourceOfFirst(s: Segment, rest: seq<Segment>)
    ensures SourceLines([s] + rest) == s.leading + s.lines + SourceLines(rest)
  {
    assert ([s] + rest)[1..] == rest;
  }

  lemma RewrittenFirst(s: Segment, rest: seq<Segment>)
    requires s.lines != [] && forall t | t in rest :: t.lines != []
    ensures RewrittenAll([s] + rest) == [Rewritten(s)] + RewrittenAll(rest)
  {
    hide Rewritten;
    assert ([s] + rest)[1..] == rest;
  }

  // ----- Rendering -----

  /** A rendered construct, with or without the blank line the formatter writes in front. */
  datatype Chunk = Chunk(gap: bool, piece: Piece)

  function ChunkLines(c: Chunk, eol: string): seq<string> {
    (if c.gap then [eol] else []) + Lead(c.piece.leading) + c.piece.lines
  }

  function ChunksLines(chunks: seq<Chunk>, eol: string): seq<string> {
    if chunks == [] then [] else ChunkLines(chunks[0], eol) + ChunksLines(chunks[1..], eol)
  }

  function ChunkPieces(chunks: seq<Chunk>): seq<Piece> {
    if chunks == [] then [] else [chunks[0].piece] + ChunkPieces(chunks[1..])
  }

  function KvChunks(kvs: seq<Kv>, bare: bool): seq<Chunk> {
    if kvs == [] then []
    else
      var kv := kvs[0];
      [Chunk(kv.spaced && !bare, Piece(false, kv.leading, kv.lines))]
      + KvChunks(kvs[1..], bare && KvLines(kv, bare, "") == [])
  }

  function HeaderChunks(header: Option<Header>, bare: bool): seq<Chunk> {
    match header
    case None => []
    case Some(h) => [Chunk(!bare, Piece(true, h.leading, [h.line]))]
  }

  function BlockChunks(b: Block, bare: bool): seq<Chunk> {
    HeaderChunks(b.header, bare) + KvChunks(OrderKvs(b), bare && b.header.None?)
  }

  function BlocksChunks(blocks: seq<Block>, bare: bool): seq<Chunk> {
    if blocks == [] then []
    else BlockChunks(blocks[0], bare) + BlocksChunks(blocks[1..], bare && BlockLines(blocks[0], bare, "") == [])
  }

  lemma {:induction false} ChunksConcat(a: seq<Chunk>, b: seq<Chunk>, eol: string)
    ensures ChunksLines(a + b, eol) == ChunksLines(a, eol) + ChunksLines(b, eol)
    ensures ChunkPieces(a + b) == ChunkPieces(a) + ChunkPieces(b)
  {
    hide ChunkLines;
    if a == [] {
      assert a + b == b;
    } else {
      assert (a + b)[1..] == a[1..] + b && (a + b)[0] == a[0];
      ChunksConcat(a[1..], b, eol);
      var head, x, y := ChunkLines(a[0], eol), ChunksLines(a[1..], eol), ChunksLines(b, eol);
      assert head + (x + y) == (head + x) + y;
      var piece, p, q := [a[0].piece], ChunkPieces(a[1..]), ChunkPieces(b);
      assert piece + (p + q) == (piece + p) + q;
    }
  }

  lemma {:induction false} KvChunksLines(kvs: seq<Kv>, bare: bool, eol: string)
    ensures ChunksLines(KvChunks(kvs, bare), eol) == KvsLines(kvs, bare, eol)
    ensures ChunkPieces(KvChunks(kvs, bare)) == KvPieces(kvs)
  {
    hide Lead;
    if kvs != [] {
      assert KvLines(kvs[0], bare, eol) == [] <==> KvLines(kvs[0], bare, "") == [];
      KvChunksLines(kvs[1..], bare && KvLines(kvs[0], bare, "") == [], eol);
      assert KvChunks(kvs, bare)[1..] == KvChunks(kvs[1..], bare && KvLines(kvs[0], bare, "") == []);
    }
  }

  lemma BlockChunksLines(b: Block, bare: bool, eol: string)
    ensures ChunksLines(BlockChunks(b, bare), eol) == BlockLines(b, bare, eol)
    ensures ChunkPieces(BlockChunks(b, bare)) == HeaderPieces(b.header) + KvPieces(OrderKvs(b))
  {
    hide OrderKvs, Lead, KvChunks, KvsLines;
    var heads, kvs := HeaderChunks(b.header, bare), KvChunks(OrderKvs(b), bare && b.header.None?);
    KvChunksLines(OrderKvs(b), bare && b.header.None?, eol);
    ChunksConcat(heads, kvs, eol);
    if b.header.Some? {
      assert heads[1..] == [];
    }
  }

  lemma BlockLinesEmpty(b: Block, bare: bool, eol: string)
    ensures BlockLines(b, bare, eol) == [] <==> BlockLines(b, bare, "") == []
  {
    hide OrderKvs, Lead;
    KvsLinesEmpty(OrderKvs(b), bare && b.header.None?, eol);
  }

  lemma {:induction false} KvsLinesEmpty(kvs: seq<Kv>, bare: bool, eol: string)
    ensures KvsLines(kvs, bare, eol) == [] <==> KvsLines(kvs, bare, "") == []
  {
    hide Lead;
    if kvs != [] {
      KvsLinesEmpty(kvs[1..], bare && KvLines(kvs[0], bare, "") == [], eol);
    }
  }

  function LaidPieces(blocks: seq<Block>): seq<Piece> {
    if blocks == [] then []
    else HeaderPieces(blocks[0].header) + KvPieces(OrderKvs(blocks[0])) + LaidPieces(blocks[1..])
  }

  lemma {:induction false} BlocksChunksLines(blocks: seq<Block>, bare: bool, eol: string)
    ensures ChunksLines(BlocksChunks(blocks, bare), eol) == BlocksLines(blocks, bare, eol)
    ensures ChunkPieces(BlocksChunks(blocks, bare)) == LaidPieces(blocks)
  {
    hide OrderKvs, BlockChunks, BlockLines;
    if blocks != [] {
      BlockLinesEmpty(blocks[0], bare, eol);
      BlockChunksLines(blocks[0], bare, eol);
      var bare' := bare && BlockLines(blocks[0], bare, "") == [];
      BlocksChunksLines(blocks[1..], bare', eol);
      ChunksConcat(BlockChunks(blocks[0], bare), BlocksChunks(blocks[1..], bare'), eol);
    }
  }

  // ----- Ordering -----

  lemma {:induction false} KvPiecesPermute(a: seq<Kv>, b: seq<Kv>)
    requires multiset(a) == multiset(b)
    ensures multiset(KvPieces(a)) == multiset(KvPieces(b))
    decreases |a|
  {
    if a == [] {
      assert |multiset(b)| == 0;
    } else {
      var i := Sorting.PickFirst(a, b);
      KvPiecesPermute(a[1..], b[..i] + b[i + 1..]);
      KvPiecesConcat(b[..i], [a[0]] + b[i + 1..]);
      KvPiecesConcat(b[..i], b[i + 1..]);
      assert ([a[0]] + b[i + 1..])[1..] == b[i + 1..];
    }
  }

  lemma {:induction false} PiecesPermute(a: seq<Block>, b: seq<Block>)
    requires multiset(a) == multiset(b)
    ensures multiset(Pieces(a)) == multiset(Pieces(b))
    decreases |a|
  {
    hide HeaderPieces, KvPieces;
    if a == [] {
      assert |multiset(b)| == 0;
    } else {
      var i := Sorting.PickFirst(a, b);
      PiecesPermute(a[1..], b[..i] + b[i + 1..]);
      PiecesConcat(b[..i], [a[0]] + b[i + 1..]);
      PiecesConcat(b[..i], b[i + 1..]);
      assert ([a[0]] + b[i + 1..])[1..] == b[i + 1..];
    }
  }

  lemma {:induction false} LaidKeepsAll(blocks: seq<Block>)
    ensures multiset(LaidPieces(blocks)) == multiset(Pieces(blocks))
  {
    hide OrderKvs, HeaderPieces, KvPieces;
    if blocks != [] {
      OrderKvsPermutes(blocks[0]);
      KvPiecesPermute(OrderKvs(blocks[0]), blocks[0].kvs);
      LaidKeepsAll(blocks[1..]);
    }
  }

  lemma OrderKvsPermutes(b: Block)
    ensures multiset(OrderKvs(b)) == multiset(b.kvs)
  {
    var table := FieldTable(b.name);
    Sorting.StableSortCorrect(b.kvs, (kv: Kv) => FieldRank(table, kv.key));
  }

  lemma OrderBlocksPermutes(blocks: seq<Block>)
    ensures multiset(OrderBlocks(blocks)) == multiset(blocks)
  {
    Sorting.StableSortCorrect(blocks, (b: Block) => SectionRank(b.name));
  }

  /** The rendered lines are the stored pieces, each exactly once, and then the trailer. */
  lemma RenderKeepsAll(blocks: seq<Block>, trailer: seq<string>, eol: string)
    ensures var chunks := BlocksChunks(OrderBlocks(blocks), true);
      && RenderLines(OrderBlocks(blocks), trailer, eol) == ChunksLines(chunks, eol) + TrailerLines(trailer)
      && multiset(ChunkPieces(chunks)) == multiset(Pieces(blocks))
  {
    hide OrderBlocks, LaidPieces, Pieces, BlocksChunks, BlocksLines;
    BlocksChunksLines(OrderBlocks(blocks), true, eol);
    LaidKeepsAll(OrderBlocks(blocks));
    OrderBlocksPermutes(blocks);
    PiecesPermute(OrderBlocks(blocks), blocks);
  }

  /**
   From source lines to output lines: the source is its segments and the trailer,
   the output is one chunk for each rewritten segment and the trailer, and a chunk
   holds the comments of its segment directly in front of the construct.
   */
  lemma NothingLost(lines: seq<string>, eol: string)
    requires ScanFrom(lines, 1, [ROOT], [], 0).Ok?
    ensures var doc := ScanFrom(lines, 1, [ROOT], [], 0).value;
      var segments, chunks := Segments(lines, []), BlocksChunks(OrderBlocks(doc.blocks), true);
      && lines == SourceLines(segments) + doc.trailer
      && WellCut(segments)
      && RenderLines(OrderBlocks(doc.blocks), doc.trailer, eol) == ChunksLines(chunks, eol) + TrailerLines(doc.trailer)
      && multiset(ChunkPieces(chunks)) == multiset(RewrittenAll(segments))
  {
    hide ScanFrom, OrderBlocks, BlocksChunks, RenderLines, RewrittenAll, IsFiller;
    SegmentsWellCut(lines, []);
    SegmentsCover(lines, 1, [ROOT], [], 0);
    SegmentsStored(lines, 1, [ROOT], [], 0);
    var doc := ScanFrom(lines, 1, [ROOT], [], 0).value;
    RenderKeepsAll(doc.blocks, doc.trailer, eol);
    assert Pieces([ROOT]) == [] by { PiecesOfOne(ROOT); }
    assert [] + lines == lines;
    assert [] + RewrittenAll(Segments(lines, [])) == RewrittenAll(Segments(lines, []));
  }

  /** The exception: a comment behind a header loses its last character to the closing bracket. */
  lemma HeaderCommentLosesCharacter()
    ensures NormaliseHeader("[DOCUMENTATION] # note") == "[DOCUMENTATION] # not]"
  {
    var t := "[DOCUMENTATION] # note";
    hide Trim;
    assert Middle(t, 1, 1) == "DOCUMENTATION] # not";
    TrimFixed("DOCUMENTATION] # not");
  }
}
