/**
 Formatting twice is formatting once: invariant 2 at the head of
 `src/format-file.ts`, for sources with plain line feeds.
 */
module FormatIdempotence {
  import opened JsText
  import opened Wrappers
  import opened FormatScan
  import opened FormatDoc
  import opened FormatLines
  import opened FormatRescan
  import Sorting

  // ----- The documents the theorem is about -----

  /** Every text the formatter hands to its quote rewriter is tidy and no header nests its brackets. */
  ghost predicate TidyLines(lines: seq<string>)
    decreases |lines|
  {
    if lines == [] then true
    else if IsFiller(lines[0]) then NoMark(lines[0]) && TidyLines(lines[1..])
    else if ScanLine(lines[0], 0, Outside).eq < 0 then
      HeaderPlain(Trim(lines[0])) && TidyLines(lines[1..])
    else
      match ConsumeKv(lines, 0)
      case Err(_) => true
      case Ok(consumed) =>
        ConsumeLength(lines, 0);
        TidyKv(lines) && TidyLines(lines[|consumed.lines|..])
  }

  // ----- What a scan produces -----

  ghost predicate Fillers(lines: seq<string>) {
    PlainLines(lines) && forall l | l in lines :: IsFiller(l) && NoMark(l)
  }

  ghost predicate KvOk(kv: Kv) {
    KvFixed(kv.key, kv.lines) && PlainLines(kv.lines) && NoMark(kv.lines[0]) && Fillers(kv.leading)
  }

  ghost predicate HeaderOk(b: Block) {
    && b.header.Some? && HeaderFixed(b.name, b.header.value.line)
    && PlainLines([b.header.value.line]) && NoMark(b.header.value.line)
    && Fillers(b.header.value.leading)
  }

  ghost predicate KvsOk(b: Block) {
    forall kv | kv in b.kvs :: KvOk(kv)
  }

  ghost predicate BlocksOk(blocks: seq<Block>) {
    && blocks != [] && blocks[0].name == "" && blocks[0].header.None?
    && (forall i | 1 <= i < |blocks| :: HeaderOk(blocks[i]))
    && (forall b | b in blocks :: KvsOk(b))
  }

  lemma AddKvOk(blocks: seq<Block>, kv: Kv)
    requires BlocksOk(blocks) && KvOk(kv)
    ensures BlocksOk(AddKv(blocks, kv))
  {
    hide KvOk, HeaderFixed;
    var r, last := AddKv(blocks, kv), blocks[|blocks| - 1];
    assert last in blocks;
    forall b | b in r ensures KvsOk(b) {
      if b !in blocks { assert b == last.(kvs := last.kvs + [kv]); }
    }
  }

  lemma AddBlockOk(blocks: seq<Block>, b: Block)
    requires BlocksOk(blocks) && HeaderOk(b) && b.kvs == []
    ensures BlocksOk(blocks + [b])
  {
    hide KvOk, HeaderFixed;
  }

  lemma ConsumeAnyLine(lines: seq<string>, line: nat)
    requires lines != [] && ConsumeKv(lines, line).Ok?
    ensures ConsumeKv(lines, 0) == ConsumeKv(lines, line)
  {
    hide Walk, NormaliseFirstLine, NormaliseKey;
  }

  lemma {:induction false} ScanOk(lines: seq<string>, line: nat, blocks: seq<Block>, pending: seq<string>, order: nat)
    requires blocks != [] && BlocksOk(blocks) && PlainLines(lines) && TidyLines(lines) && Fillers(pending)
    requires ScanFrom(lines, line, blocks, pending, order).Ok?
    ensures var doc := ScanFrom(lines, line, blocks, pending, order).value;
      BlocksOk(doc.blocks) && Fillers(doc.trailer)
    decreases |lines|
  {
    hide Walk, ConsumeKv, IsFiller, TidyKv, HeaderFixed, KvOk, HeaderPlain, NormaliseHeader, HeaderName, Trim, BlocksOk;
    if lines != [] {
      var raw := lines[0];
      if IsFiller(raw) {
        ScanOk(lines[1..], line + 1, blocks, pending + [raw], order);
      } else if ScanLine(raw, 0, Outside).eq < 0 {
        HeaderStable(raw);
        var b := Block(HeaderName(Trim(raw)), Some(Header(NormaliseHeader(Trim(raw)) + EndOfLine(raw), pending)), []);
        AddBlockOk(blocks, b);
        ScanOk(lines[1..], line + 1, blocks + [b], [], order);
      } else {
        ConsumeAnyLine(lines, line);
        var consumed := ConsumeKv(lines, line).value;
        ConsumeLength(lines, line);
        KvStable(lines, line);
        var spaced := AnyBlank(pending);
        var kv := Kv(consumed.key, consumed.lines, pending, spaced, order);
        assert KvOk(kv) by { KvOkFrom(kv); }
        AddKvOk(blocks, kv);
        var n := |consumed.lines|;
        ScanOk(lines[n..], line + n, AddKv(blocks, kv), [], order + 1);
      }
    }
  }

  lemma KvOkFrom(kv: Kv)
    requires KvFixed(kv.key, kv.lines) && PlainLines(kv.lines) && NoMark(kv.lines[0]) && Fillers(kv.leading)
    ensures KvOk(kv)
  {
  }

  // ----- Rendered leading lines -----

  lemma {:induction false} TrimStartAppendSpace(s: string, w: string)
    requires AllSpace(w)
    ensures TrimStart(s + w) == if TrimStart(s) == "" then "" else TrimStart(s) + w
  {
    if s == "" {
      assert s + w == w;
      TrimStartOfSpace(w);
    } else if IsSpace(s[0]) {
      assert (s + w)[1..] == s[1..] + w && (s + w)[0] == s[0];
      TrimStartAppendSpace(s[1..], w);
    } else {
      assert (s + w)[0] == s[0];
    }
  }

  lemma {:induction false} TrimEndAppendSpace(s: string, w: string)
    requires AllSpace(w)
    ensures TrimEnd(s + w) == TrimEnd(s)
    decreases |w|
  {
    if w == "" {
      assert s + w == s;
    } else {
      var front := w[..|w| - 1];
      assert (s + w)[..|s + w| - 1] == s + front;
      TrimEndAppendSpace(s, front);
    }
  }

  lemma TrimOfStrip(raw: string)
    requires '\r' !in raw && '\n' !in raw
    ensures Trim(RstripWs(raw)) == Trim(raw) && RstripWs(RstripWs(raw)) == RstripWs(raw)
    ensures '\r' !in RstripWs(raw) && '\n' !in RstripWs(raw) && (NoMark(raw) ==> NoMark(RstripWs(raw)))
  {
    StripKeepsOut(raw, '\n');
    var x := StripBlanks(raw);
    StripBlanksSplit(raw);
    StripIdempotent(raw);
    TrimStartAppendSpace(x, raw[|x|..]);
    if TrimStart(x) != "" { TrimEndAppendSpace(TrimStart(x), raw[|x|..]); }
  }

  /** Written leading lines are comments that are written the same way again. */
  lemma {:induction false} LeadOk(leading: seq<string>)
    requires Fillers(leading)
    ensures Fillers(Lead(leading)) && Lead(Lead(leading)) == Lead(leading)
    ensures forall l | l in Lead(leading) :: !IsBlankLine(l)
  {
    hide RstripWs, Trim;
    if leading != [] {
      TrimOfStrip(leading[0]);
      LeadOk(leading[1..]);
      if !IsBlankLine(RstripWs(leading[0])) {
        assert Lead(leading)[1..] == Lead(leading[1..]);
      } else {
        assert Lead(leading) == Lead(leading[1..]);
      }
    }
  }

  lemma {:induction false} TrailerOk(trailer: seq<string>)
    requires Fillers(trailer)
    ensures Fillers(TrailerLines(trailer)) && TrailerLines(TrailerLines(trailer)) == TrailerLines(trailer)
  {
    hide RstripWs, Trim;
    if trailer != [] {
      TrimOfStrip(trailer[0]);
      TrailerOk(trailer[1..]);
    }
  }

  // ----- Scanning rendered lines -----

  lemma {:induction false} RescanFillers(fill: seq<string>, rest: seq<string>, line: nat, blocks: seq<Block>,
                                         pending: seq<string>, order: nat)
    requires blocks != [] && Fillers(fill)
    ensures ScanFrom(fill + rest, line, blocks, pending, order)
         == ScanFrom(rest, line + |fill|, blocks, pending + fill, order)
    decreases |fill|
  {
    hide ScanFrom, IsFiller;
    if fill == [] {
      assert fill + rest == rest && pending + fill == pending;
    } else {
      assert (fill + rest)[1..] == fill[1..] + rest && (fill + rest)[0] == fill[0];
      FillerStep(fill + rest, line, blocks, pending, order);
      RescanFillers(fill[1..], rest, line + 1, blocks, pending + [fill[0]], order);
      assert pending + [fill[0]] + fill[1..] == pending + fill;
    }
  }

  /** The leading lines in front of a rendered construct. */
  function Reread(leading: seq<string>, gap: bool): seq<string> {
    (if gap then [""] else []) + Lead(leading)
  }

  lemma RereadOk(leading: seq<string>, gap: bool)
    requires Fillers(leading)
    ensures Fillers(Reread(leading, gap)) && Lead(Reread(leading, gap)) == Lead(leading)
    ensures AnyBlank(Reread(leading, gap)) <==> gap
  {
    hide Lead, Fillers, IsBlankLine;
    LeadOk(leading);
    EmptyLine();
    if gap {
      assert Reread(leading, gap)[0] == "" && Reread(leading, gap)[1..] == Lead(leading);
      FillersConcat([""], Lead(leading));
      LeadOfBlank(Reread(leading, gap));
      assert "" in Reread(leading, gap);
    } else {
      assert Reread(leading, gap) == Lead(leading);
    }
  }

  lemma EmptyLine()
    ensures Fillers([""]) && IsBlankLine("")
  {
  }

  lemma FillersConcat(a: seq<string>, b: seq<string>)
    requires Fillers(a) && Fillers(b)
    ensures Fillers(a + b)
  {
    hide IsFiller, NoMark;
  }

  lemma LeadOfBlank(lines: seq<string>)
    requires lines != [] && lines[0] == ""
    ensures Lead(lines) == Lead(lines[1..])
  {
  }

  function RereadKv(kv: Kv, bare: bool, order: nat): Kv {
    var gap := kv.spaced && !bare;
    kv.(leading := Reread(kv.leading, gap), spaced := gap, order := order)
  }

  lemma RescanKv(kv: Kv, bare: bool, rest: seq<string>, line: nat, blocks: seq<Block>, order: nat)
    requires blocks != [] && KvOk(kv)
    ensures var lines := KvLines(kv, bare, "");
      ScanFrom(lines + rest, line, blocks, [], order)
        == ScanFrom(rest, line + |lines|, AddKv(blocks, RereadKv(kv, bare, order)), [], order + 1)
  {
    hide ScanFrom, ConsumeKv, ScanLine, IsFiller, Lead, IsBlankLine, AddKv;
    var gap := kv.spaced && !bare;
    var fill, next := Reread(kv.leading, gap), RereadKv(kv, bare, order);
    RereadOk(kv.leading, gap);
    assert KvLines(kv, bare, "") + rest == fill + (kv.lines + rest);
    RescanFillers(fill, kv.lines + rest, line, blocks, [], order);
    assert [] + fill == fill;
    ConsumeMore(kv.key, kv.lines, rest, line + |fill|);
    assert (kv.lines + rest)[|kv.lines|..] == rest && (kv.lines + rest)[0] == kv.lines[0];
    KvStep(kv.lines + rest, |kv.lines|, line + |fill|, blocks, fill, order, next);
  }

  function RereadKvs(kvs: seq<Kv>, bare: bool, order: nat): seq<Kv> {
    if kvs == [] then [] else [RereadKv(kvs[0], bare, order)] + RereadKvs(kvs[1..], false, order + 1)
  }

  function AddKvs(blocks: seq<Block>, kvs: seq<Kv>): seq<Block>
    requires blocks != []
  {
    var last := blocks[|blocks| - 1];
    blocks[..|blocks| - 1] + [last.(kvs := last.kvs + kvs)]
  }

  lemma {:induction false} RescanKvs(kvs: seq<Kv>, bare: bool, rest: seq<string>, line: nat, blocks: seq<Block>,
                                     order: nat)
    requires blocks != [] && forall kv | kv in kvs :: KvOk(kv)
    ensures var lines := KvsLines(kvs, bare, "");
      ScanFrom(lines + rest, line, blocks, [], order)
        == ScanFrom(rest, line + |lines|, AddKvs(blocks, RereadKvs(kvs, bare, order)), [], order + |kvs|)
    decreases |kvs|
  {
    hide ScanFrom, KvOk, KvLines, RereadKv;
    if kvs == [] {
      assert KvsLines(kvs, bare, "") + rest == rest;
      var last := blocks[|blocks| - 1];
      assert last.kvs + [] == last.kvs;
      assert AddKvs(blocks, []) == blocks;
    } else {
      KvLinesNonempty(kvs[0], bare);
      var head, tail := KvLines(kvs[0], bare, ""), KvsLines(kvs[1..], false, "");
      assert KvsLines(kvs, bare, "") + rest == head + (tail + rest);
      RescanKv(kvs[0], bare, tail + rest, line, blocks, order);
      var first := RereadKv(kvs[0], bare, order);
      var next := AddKv(blocks, first);
      RescanKvs(kvs[1..], false, rest, line + |head|, next, order + 1);
      assert next[..|next| - 1] == blocks[..|blocks| - 1];
      assert AddKvs(next, RereadKvs(kvs[1..], false, order + 1)) == AddKvs(blocks, RereadKvs(kvs, bare, order)) by {
        assert blocks[|blocks| - 1].kvs + [first] + RereadKvs(kvs[1..], false, order + 1)
            == blocks[|blocks| - 1].kvs + RereadKvs(kvs, bare, order);
      }
    }
  }

  lemma KvLinesNonempty(kv: Kv, bare: bool)
    requires KvOk(kv)
    ensures KvLines(kv, bare, "") != []
  {
  }

  /** A block as it comes back from its rendered lines. */
  function RereadBlock(b: Block, bare: bool, order: nat): Block {
    var header := match b.header
      case None => None
      case Some(h) => Some(h.(leading := Reread(h.leading, !bare)));
    b.(header := header, kvs := RereadKvs(OrderKvs(b), bare && b.header.None?, order))
  }

  lemma OrderKvsMembers(b: Block)
    requires KvsOk(b)
    ensures forall kv | kv in OrderKvs(b) :: KvOk(kv)
  {
    hide KvOk;
    var table := FieldTable(b.name);
    Sorting.StableSortCorrect(b.kvs, (kv: Kv) => FieldRank(table, kv.key));
    forall kv | kv in OrderKvs(b) ensures KvOk(kv) {
      assert kv in multiset(OrderKvs(b));
    }
  }

  lemma RescanHeader(b: Block, bare: bool, rest: seq<string>, line: nat, blocks: seq<Block>, order: nat)
    requires blocks != [] && HeaderOk(b)
    ensures var h := b.header.value; var lines := HeaderLines(b.header, bare, "");
      ScanFrom(lines + rest, line, blocks, [], order)
        == ScanFrom(rest, line + |lines|,
                    blocks + [Block(b.name, Some(h.(leading := Reread(h.leading, !bare))), [])], [], order)
  {
    hide ScanFrom, ScanLine, IsFiller, Lead, IsBlankLine, HeaderName, NormaliseHeader, Trim;
    var h := b.header.value;
    var fill := Reread(h.leading, !bare);
    RereadOk(h.leading, !bare);
    assert HeaderLines(b.header, bare, "") + rest == fill + ([h.line] + rest);
    RescanFillers(fill, [h.line] + rest, line, blocks, [], order);
    assert [] + fill == fill;
    assert ([h.line] + rest)[1..] == rest;
    HeaderStep([h.line] + rest, line + |fill|, blocks, fill, order);
  }

  lemma RescanBlock(b: Block, bare: bool, rest: seq<string>, line: nat, blocks: seq<Block>, order: nat)
    requires blocks != [] && HeaderOk(b) && KvsOk(b)
    ensures var lines := BlockLines(b, bare, "");
      ScanFrom(lines + rest, line, blocks, [], order)
        == ScanFrom(rest, line + |lines|, blocks + [RereadBlock(b, bare, order)], [], order + |OrderKvs(b)|)
  {
    hide ScanFrom, KvOk, OrderKvs, KvsLines, RereadKvs, HeaderFixed, HeaderLines, AddKvs, KvsOk, Reread, Fillers;
    var head, body := HeaderLines(b.header, bare, ""), KvsLines(OrderKvs(b), false, "");
    var empty := Block(b.name, Some(b.header.value.(leading := Reread(b.header.value.leading, !bare))), []);
    OrderKvsMembers(b);
    assert BlockLines(b, bare, "") + rest == head + (body + rest);
    RescanHeader(b, bare, body + rest, line, blocks, order);
    RescanKvs(OrderKvs(b), false, rest, line + |head|, blocks + [empty], order);
    var kvs := RereadKvs(OrderKvs(b), false, order);
    AddKvsToEmpty(blocks, empty, kvs);
  }

  lemma AddKvsToEmpty(blocks: seq<Block>, empty: Block, kvs: seq<Kv>)
    requires empty.kvs == []
    ensures AddKvs(blocks + [empty], kvs) == blocks + [empty.(kvs := kvs)]
  {
    assert [] + kvs == kvs;
  }

  function RereadBlocks(blocks: seq<Block>, bare: bool, order: nat): seq<Block> {
    if blocks == [] then []
    else
      [RereadBlock(blocks[0], bare, order)]
      + RereadBlocks(blocks[1..], bare && BlockLines(blocks[0], bare, "") == [], order + |OrderKvs(blocks[0])|)
  }

  lemma {:induction false} RescanBlocks(bs: seq<Block>, bare: bool, rest: seq<string>, line: nat,
                                        blocks: seq<Block>, order: nat) returns (line': nat, order': nat)
    requires blocks != [] && forall b | b in bs :: HeaderOk(b) && KvsOk(b)
    ensures ScanFrom(BlocksLines(bs, bare, "") + rest, line, blocks, [], order)
         == ScanFrom(rest, line', blocks + RereadBlocks(bs, bare, order), [], order')
    decreases |bs|
  {
    hide ScanFrom, HeaderOk, KvsOk, BlockLines, RereadBlock, OrderKvs;
    if bs == [] {
      line', order' := line, order;
      assert BlocksLines(bs, bare, "") + rest == rest && blocks + RereadBlocks(bs, bare, order) == blocks;
    } else {
      var head := BlockLines(bs[0], bare, "");
      var bare' := bare && head == [];
      var tail := BlocksLines(bs[1..], bare', "");
      var first := RereadBlock(bs[0], bare, order);
      assert BlocksLines(bs, bare, "") + rest == head + (tail + rest);
      RescanBlock(bs[0], bare, tail + rest, line, blocks, order);
      line', order' := RescanBlocks(bs[1..], bare', rest, line + |head|, blocks + [first], order + |OrderKvs(bs[0])|);
      assert blocks + [first] + RereadBlocks(bs[1..], bare', order + |OrderKvs(bs[0])|)
          == blocks + RereadBlocks(bs, bare, order);
    }
  }

  // ----- A rendered document is in order -----

  lemma OrderBlocksCorrect(blocks: seq<Block>)
    requires BlocksOk(blocks)
    ensures var r := OrderBlocks(blocks);
      BlocksOk(r) && Sorting.SortedBy(r, (b: Block) => SectionRank(b.name)) && multiset(r) == multiset(blocks)
  {
    hide HeaderOk, KvsOk, SectionRank;
    var rank := (b: Block) => SectionRank(b.name);
    var r := OrderBlocks(blocks);
    Sorting.StableSortCorrect(blocks, rank);
    forall i | 0 <= i < |blocks| ensures rank(blocks[0]) <= rank(blocks[i]) { RankAtLeast(blocks[i].name); }
    Sorting.SortKeepsFirst(blocks, rank);
    assert r == [r[0]] + r[1..] && blocks == [blocks[0]] + blocks[1..];
    SameTail(r, blocks);
    forall i | 1 <= i < |r| ensures HeaderOk(r[i]) {
      assert r[1..][i - 1] == r[i];
      assert r[i] in multiset(r[1..]);
      assert r[i] in blocks[1..];
    }
    forall b | b in r ensures KvsOk(b) { assert b in multiset(r); }
  }

  lemma SameTail<T>(a: seq<T>, b: seq<T>)
    requires a != [] && b != [] && a[0] == b[0] && multiset(a) == multiset(b)
    ensures multiset(a[1..]) == multiset(b[1..])
  {
    assert a == [a[0]] + a[1..] && b == [b[0]] + b[1..];
    assert multiset(a[1..]) == multiset(a) - multiset{a[0]};
    assert multiset(b[1..]) == multiset(b) - multiset{b[0]};
  }

  lemma RankAtLeast(name: string)
    ensures SectionRank("") == -1 <= SectionRank(name)
  {
  }

  lemma {:induction false} RereadNames(bs: seq<Block>, bare: bool, order: nat)
    ensures var r := RereadBlocks(bs, bare, order);
      |r| == |bs| && forall i | 0 <= i < |bs| :: r[i].name == bs[i].name
    decreases |bs|
  {
    hide BlockLines, OrderKvs;
    if bs != [] {
      RereadNames(bs[1..], bare && BlockLines(bs[0], bare, "") == [], order + |OrderKvs(bs[0])|);
    }
  }

  lemma {:induction false} RereadKeys(kvs: seq<Kv>, bare: bool, order: nat)
    ensures var r := RereadKvs(kvs, bare, order);
      |r| == |kvs| && forall i | 0 <= i < |kvs| :: r[i].key == kvs[i].key
    decreases |kvs|
  {
    if kvs != [] { RereadKeys(kvs[1..], false, order + 1); }
  }

  /** Key order is kept by names alone. */
  lemma OrderKvsReread(b: Block, bare: bool, order: nat)
    ensures OrderKvs(RereadBlock(b, bare, order)) == RereadBlock(b, bare, order).kvs
  {
    hide FieldRank, FieldTable;
    var table := FieldTable(b.name);
    var rank := (kv: Kv) => FieldRank(table, kv.key);
    var sorted := OrderKvs(b);
    Sorting.StableSortCorrect(b.kvs, rank);
    var r := RereadBlock(b, bare, order).kvs;
    RereadKeys(sorted, bare && b.header.None?, order);
    forall i, j | 0 <= i < j < |r| ensures rank(r[i]) <= rank(r[j]) {
      assert rank(sorted[i]) <= rank(sorted[j]);
    }
    Sorting.SortOfSorted(r, rank);
  }

  lemma {:induction false} RereadKvsLines(kvs: seq<Kv>, bare: bool, order: nat)
    requires forall kv | kv in kvs :: KvOk(kv)
    ensures KvsLines(RereadKvs(kvs, bare, order), bare, "") == KvsLines(kvs, bare, "")
    decreases |kvs|
  {
    hide KvOk, Lead;
    if kvs != [] {
      RereadKvLines(kvs[0], bare, order);
      KvLinesNonempty(kvs[0], bare);
      RereadKvsLines(kvs[1..], false, order + 1);
      assert RereadKvs(kvs, bare, order)[1..] == RereadKvs(kvs[1..], false, order + 1);
    }
  }

  lemma RereadKvLines(kv: Kv, bare: bool, order: nat)
    requires KvOk(kv)
    ensures KvLines(RereadKv(kv, bare, order), bare, "") == KvLines(kv, bare, "")
  {
    hide Lead;
    RereadOk(kv.leading, kv.spaced && !bare);
  }

  lemma RereadBlockLines(b: Block, bare: bool, order: nat)
    requires (b.header.None? || HeaderOk(b)) && KvsOk(b)
    ensures BlockLines(RereadBlock(b, bare, order), bare, "") == BlockLines(b, bare, "")
  {
    hide OrderKvs, KvsLines, Lead, KvOk;
    OrderKvsMembers(b);
    OrderKvsReread(b, bare, order);
    RereadKvsLines(OrderKvs(b), bare && b.header.None?, order);
    if b.header.Some? {
      RereadOk(b.header.value.leading, !bare);
    }
  }

  lemma {:induction false} RereadBlocksLines(bs: seq<Block>, bare: bool, order: nat)
    requires forall b | b in bs :: (b.header.None? || HeaderOk(b)) && KvsOk(b)
    ensures BlocksLines(RereadBlocks(bs, bare, order), bare, "") == BlocksLines(bs, bare, "")
    decreases |bs|
  {
    hide OrderKvs, BlockLines, HeaderOk, KvsOk;
    if bs != [] {
      RereadBlockLines(bs[0], bare, order);
      var bare', order' := bare && BlockLines(bs[0], bare, "") == [], order + |OrderKvs(bs[0])|;
      RereadBlocksLines(bs[1..], bare', order');
      assert RereadBlocks(bs, bare, order)[1..] == RereadBlocks(bs[1..], bare', order');
    }
  }

  lemma RootOk()
    ensures BlocksOk([ROOT]) && Fillers([])
  {
  }

  lemma RescanRoot(root: Block, rest: seq<string>)
    requires root.name == "" && root.header.None? && KvsOk(root)
    ensures var lines := BlockLines(root, true, "");
      ScanFrom(lines + rest, 1, [ROOT], [], 0)
        == ScanFrom(rest, 1 + |lines|, [RereadBlock(root, true, 0)], [], |OrderKvs(root)|)
  {
    hide ScanFrom, KvOk, OrderKvs, KvsLines, RereadKvs, KvsOk, AddKvs;
    OrderKvsMembers(root);
    RescanKvs(OrderKvs(root), true, rest, 1, [ROOT], 0);
    assert BlockLines(root, true, "") == KvsLines(OrderKvs(root), true, "");
    var kvs := RereadKvs(OrderKvs(root), true, 0);
    AddKvsToEmpty([], ROOT, kvs);
    assert [] + [ROOT] == [ROOT] && [] + [ROOT.(kvs := kvs)] == [ROOT.(kvs := kvs)];
    assert RereadBlock(root, true, 0) == ROOT.(kvs := kvs);
  }

  lemma TailOk(blocks: seq<Block>)
    requires BlocksOk(blocks)
    ensures blocks != [] && blocks[0].name == "" && blocks[0].header.None? && KvsOk(blocks[0])
    ensures forall b | b in blocks[1..] :: HeaderOk(b) && KvsOk(b)
  {
    hide HeaderOk, KvsOk;
    assert blocks[0] in blocks;
    forall b | b in blocks[1..] ensures HeaderOk(b) && KvsOk(b) {
      var i :| 0 <= i < |blocks[1..]| && blocks[1..][i] == b;
      assert blocks[i + 1] == b;
    }
  }

  /** Scanning a rendered document gives its blocks back, with the leading lines as rendered. */
  lemma RescanDocument(blocks: seq<Block>, trailer: seq<string>)
    requires BlocksOk(blocks) && Fillers(trailer)
    ensures ScanFrom(RenderLines(blocks, trailer, ""), 1, [ROOT], [], 0)
         == Ok(Document(RereadBlocks(blocks, true, 0), TrailerLines(trailer)))
  {
    hide *;
    TailOk(blocks);
    var root, tail := blocks[0], TrailerLines(trailer);
    var head, first := BlockLines(root, true, ""), RereadBlock(root, true, 0);
    var bare, n := head == [], |OrderKvs(root)|;
    var body, more := BlocksLines(blocks[1..], bare, ""), RereadBlocks(blocks[1..], bare, n);
    var all := RereadBlocks(blocks, true, 0);
    RenderSplit(blocks, trailer);
    RescanRoot(root, body + tail);
    var line, order := RescanBlocks(blocks[1..], bare, tail, 1 + |head|, [first], n);
    TrailerOk(trailer);
    RescanFillers(tail, [], line, all, [], order);
    assert tail + [] == tail && [] + tail == tail;
    ScanEnd(line + |tail|, all, tail, order);
  }

  lemma RenderSplit(blocks: seq<Block>, trailer: seq<string>)
    requires blocks != []
    ensures var head := BlockLines(blocks[0], true, ""); var bare := head == [];
      && RenderLines(blocks, trailer, "") == head + (BlocksLines(blocks[1..], bare, "") + TrailerLines(trailer))
      && RereadBlocks(blocks, true, 0)
         == [RereadBlock(blocks[0], true, 0)] + RereadBlocks(blocks[1..], bare, |OrderKvs(blocks[0])|)
      && RereadBlocks(blocks, true, 0) != []
  {
    hide BlockLines, RereadBlock, OrderKvs, TrailerLines;
  }

  /** The layout rewrite on lines. */
  function LayoutLines(lines: seq<string>): Result<seq<string>, ScanError> {
    match ScanFrom(lines, 1, [ROOT], [], 0)
    case Err(e) => Err(e)
    case Ok(doc) => Ok(RenderLines(OrderBlocks(doc.blocks), doc.trailer, ""))
  }

  lemma {:induction false} LayoutLinesIdempotent(lines: seq<string>)
    requires PlainLines(lines) && TidyLines(lines)
    requires LayoutLines(lines).Ok?
    ensures LayoutLines(LayoutLines(lines).value) == LayoutLines(lines)
  {
    hide ScanFrom, HeaderOk, KvsOk, RereadBlock, SectionRank, TidyLines, BlockLines, OrderKvs, TrailerLines;
    RootOk();
    ScanOk(lines, 1, [ROOT], [], 0);
    var doc := ScanFrom(lines, 1, [ROOT], [], 0).value;
    var blocks := OrderBlocks(doc.blocks);
    OrderBlocksCorrect(doc.blocks);
    RescanDocument(blocks, doc.trailer);
    var again := RereadBlocks(blocks, true, 0);
    RereadSorted(blocks);
    RereadBlocksLines(blocks, true, 0);
    TrailerOk(doc.trailer);
  }

  lemma RereadSorted(blocks: seq<Block>)
    requires Sorting.SortedBy(blocks, (b: Block) => SectionRank(b.name))
    ensures OrderBlocks(RereadBlocks(blocks, true, 0)) == RereadBlocks(blocks, true, 0)
  {
    hide SectionRank, RereadBlocks;
    var rank := (b: Block) => SectionRank(b.name);
    var r := RereadBlocks(blocks, true, 0);
    RereadNames(blocks, true, 0);
    forall i, j | 0 <= i < j < |r| ensures rank(r[i]) <= rank(r[j]) {
      assert rank(blocks[i]) <= rank(blocks[j]);
    }
    Sorting.SortOfSorted(r, rank);
  }

  // ----- Back to strings -----

  lemma {:induction false} KvsPlain(kvs: seq<Kv>, bare: bool)
    requires forall kv | kv in kvs :: KvOk(kv)
    ensures var r := KvsLines(kvs, bare, ""); PlainLines(r) && (bare && r != [] ==> NoMark(r[0]))
    decreases |kvs|
  {
    hide Lead, KvFixed;
    if kvs != [] {
      assert KvOk(kvs[0]);
      LeadOk(kvs[0].leading);
      KvsPlain(kvs[1..], false);
      var lead := Lead(kvs[0].leading);
      assert lead != [] ==> lead[0] in lead;
      KvLinesNonempty(kvs[0], bare);
    }
  }

  lemma BlockPlain(b: Block, bare: bool)
    requires (b.header.None? || HeaderOk(b)) && KvsOk(b)
    ensures var r := BlockLines(b, bare, ""); PlainLines(r) && (bare && r != [] ==> NoMark(r[0]))
  {
    hide Lead, KvOk, OrderKvs, KvsLines, Trim, ScanLine, IsFiller;
    OrderKvsMembers(b);
    KvsPlain(OrderKvs(b), bare && b.header.None?);
    if b.header.Some? {
      LeadOk(b.header.value.leading);
      var lead := Lead(b.header.value.leading);
      assert lead != [] ==> lead[0] in lead;
      assert b.header.value.line in [b.header.value.line];
    }
  }

  lemma {:induction false} BlocksPlain(bs: seq<Block>, bare: bool)
    requires forall b | b in bs :: (b.header.None? || HeaderOk(b)) && KvsOk(b)
    ensures var r := BlocksLines(bs, bare, ""); PlainLines(r) && (bare && r != [] ==> NoMark(r[0]))
    decreases |bs|
  {
    hide BlockLines, HeaderOk, KvsOk;
    if bs != [] {
      BlockPlain(bs[0], bare);
      BlocksPlain(bs[1..], bare && BlockLines(bs[0], bare, "") == []);
    }
  }

  /**
   A source with plain line feeds whose string tokens and headers are laid out as
   TOML v1.0.0 allows. A byte order mark may only open the file.
   */
  ghost predicate Regular(source: string) {
    PlainLines(Split(Body(source), '\n')) && TidyLines(Split(Body(source), '\n'))
  }

  lemma LayoutLinesPlain(lines: seq<string>)
    requires PlainLines(lines) && TidyLines(lines) && LayoutLines(lines).Ok?
    ensures var r := LayoutLines(lines).value; PlainLines(r) && (r != [] ==> NoMark(r[0]))
  {
    hide ScanFrom, HeaderOk, KvsOk, TidyLines, IsFiller, TrailerLines;
    RootOk();
    ScanOk(lines, 1, [ROOT], [], 0);
    var doc := ScanFrom(lines, 1, [ROOT], [], 0).value;
    var blocks := OrderBlocks(doc.blocks);
    OrderBlocksCorrect(doc.blocks);
    TailOk(blocks);
    forall b | b in blocks ensures (b.header.None? || HeaderOk(b)) && KvsOk(b) {
      if b != blocks[0] { assert b in blocks[1..]; }
    }
    BlocksPlain(blocks, true);
    TrailerOk(doc.trailer);
  }

  lemma PlainEol(lines: seq<string>)
    requires lines != [] && PlainLines(lines)
    ensures EndOfLine(lines[0]) == ""
  {
    var l := lines[0];
    if l != "" { assert l[|l| - 1] in l; }
  }

  /** On plain sources, `Layout` is `LayoutLines` between a split and a join. */
  lemma LayoutByLines(source: string)
    requires PlainLines(Split(Body(source), '\n'))
    ensures match LayoutLines(Split(Body(source), '\n'))
      case Err(e) => Layout(source) == Err(e)
      case Ok(lines) =>
        Layout(source) == Ok((if source != "" && source[0] == BOM then [BOM] else "") + Join(lines, '\n'))
  {
    hide ScanFrom, RenderLines, OrderBlocks, Join, EndOfLine, PlainLines;
    PlainEol(Split(Body(source), '\n'));
    match LayoutLines(Split(Body(source), '\n'))
    case Err(_) =>
    case Ok(lines) => assert "" + Join(lines, '\n') == Join(lines, '\n');
  }

  lemma LayoutOfNothing()
    ensures LayoutLines([""]) == Ok([""])
  {
    hide *;
    ScanOfNothing();
    OrderOfRoot();
    RenderOfNothing();
    hide ScanFrom, OrderBlocks, RenderLines;
    LayoutFrom([""], Document([ROOT], [""]));
  }

  lemma LayoutFrom(lines: seq<string>, doc: Document)
    requires ScanFrom(lines, 1, [ROOT], [], 0) == Ok(doc)
    ensures LayoutLines(lines) == Ok(RenderLines(OrderBlocks(doc.blocks), doc.trailer, ""))
  {
    hide ScanFrom, RenderLines, OrderBlocks;
  }

  lemma ScanOfNothing()
    ensures ScanFrom([""], 1, [ROOT], [], 0) == Ok(Document([ROOT], [""]))
  {
    hide *;
    EmptyLine();
    RescanFillers([""], [], 1, [ROOT], [], 0);
    assert [""] + [] == [""] && [] + [""] == [""];
    ScanEnd(2, [ROOT], [""], 0);
  }

  lemma RenderOfNothing()
    ensures RenderLines([ROOT], [""], "") == [""]
  {
    hide OrderKvs;
    OrderOfRoot();
    assert BlockLines(ROOT, true, "") == [];
    assert [ROOT][1..] == [] && [""][1..] == [];
    assert BlocksLines([ROOT], true, "") == [] + BlocksLines([], true, "") == [];
    assert RstripWs("") == "";
    assert TrailerLines([""]) == [""] + [];
  }

  lemma OrderOfRoot()
    ensures OrderBlocks([ROOT]) == [ROOT] && OrderKvs(ROOT) == []
  {
    Sorting.SortOfSorted([ROOT], (b: Block) => SectionRank(b.name));
  }

  lemma JoinFirst(lines: seq<string>)
    requires lines != [] && NoMark(lines[0])
    ensures NoMark(Join(lines, '\n'))
  {
  }

  /** The layout of a laid-out source is that source. */
  lemma LayoutIdempotent(source: string)
    requires Regular(source) && Layout(source).Ok?
    ensures Layout(Layout(source).value) == Layout(source)
  {
    hide LayoutLines, Layout, TidyLines, PlainLines, NoMark;
    var lines := Split(Body(source), '\n');
    var output := Layout(source).value;
    LayoutByLines(source);
    var out := LayoutLines(lines).value;
    LayoutLinesIdempotent(lines);
    LayoutLinesPlain(lines);
    BodyOfOutput(source, out);
    if out == [] {
      LayoutOfNothing();
      assert Split("", '\n') == [""];
      assert Join([], '\n') == Join([""], '\n') == "";
      assert PlainLines([""]) by { EmptyLine(); FillersPlain([""]); }
    } else {
      PlainSplits(out);
    }
    LayoutByLines(output);
  }

  lemma FillersPlain(lines: seq<string>)
    requires Fillers(lines)
    ensures PlainLines(lines)
  {
  }

  lemma PlainSplits(lines: seq<string>)
    requires lines != [] && PlainLines(lines)
    ensures Split(Join(lines, '\n'), '\n') == lines
  {
    SplitOfJoin(lines, '\n');
  }

  lemma BodyOfOutput(source: string, out: seq<string>)
    requires out != [] ==> NoMark(out[0])
    ensures var mark := source != "" && source[0] == BOM;
      var output := (if mark then [BOM] else "") + Join(out, '\n');
      Body(output) == Join(out, '\n') && (mark <==> output != "" && output[0] == BOM)
  {
    if out != [] { JoinFirst(out); }
    assert ([BOM] + Join(out, '\n'))[1..] == Join(out, '\n');
    assert "" + Join(out, '\n') == Join(out, '\n');
  }

  /**
   Idempotence: whatever `formatToml` accepts, formatting its output is a no-op,
   for every parser and every document comparison.
   */
  lemma FormatIdempotent<D>(parse: string -> Option<D>, deepEqual: (D, D) -> bool, source: string)
    requires Regular(source) && FormatToml(parse, deepEqual, source).Ok?
    ensures var output := FormatToml(parse, deepEqual, source).value.output;
      FormatToml(parse, deepEqual, output) == Ok(Formatted(output, false))
  {
    hide Layout, Regular;
    LayoutIdempotent(source);
    AcceptedBody(source);
  }

  lemma AcceptedBody(source: string)
    requires Regular(source) && Layout(source).Ok?
    ensures var output := Layout(source).value;
      Body(output) == if source != "" && source[0] == BOM then output[1..] else output
  {
    hide LayoutLines, Layout, TidyLines, PlainLines, NoMark;
    LayoutByLines(source);
    var out := LayoutLines(Split(Body(source), '\n')).value;
    LayoutLinesPlain(Split(Body(source), '\n'));
    BodyOfOutput(source, out);
  }
}
