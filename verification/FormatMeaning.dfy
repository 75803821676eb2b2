/**
 Reordering preserves meaning: blocks are evaluated the way the "Keys", "Table"
 and "Array of Tables" sections of TOML v1.0.0 define them, and SEP-1 ordering
 does not change the result.
 */
module FormatMeaning {
  import opened JsText
  import opened Wrappers
  import opened FormatScan
  import opened FormatDoc
  import opened FormatLines
  import opened FormatRescan
  import opened FormatTokens
  import opened TomlLines
  import Sorting

  /**
   How a table came to be: by a deeper header, by its own header, or by a dotted
   key. TOML decides by this who may still add to it.
   */
  datatype Origin = Implied | Declared | Dotted

  datatype Tree<V> = Leaf(value: V) | Table(fields: Fields<V>, origin: Origin) | Tables(items: seq<Tree<V>>)

  type Fields<V> = map<string, Tree<V>>

  // ----- Key/value assignment -----

  function Get<V>(fields: Fields<V>, key: string): Option<Tree<V>> {
    if key in fields then Some(fields[key]) else None
  }

  function Put<V>(fields: Fields<V>, key: string, tree: Option<Tree<V>>): Option<Fields<V>> {
    match tree
    case None => None
    case Some(t) => Some(fields[key := t])
  }

  /** What `path = value` makes of the entry it starts at; `None` is a parse error. */
  function AssignAt<V>(current: Option<Tree<V>>, path: seq<string>, value: V): Option<Tree<V>>
    decreases |path|
  {
    if path == [] then if current.None? then Some(Leaf(value)) else None
    else
      match current
      case None => AsTable(Assign(map[], path, value), Dotted)
      case Some(Table(fields, Dotted)) => AsTable(Assign(fields, path, value), Dotted)
      case _ => None
  }

  function AsTable<V>(fields: Option<Fields<V>>, origin: Origin): Option<Tree<V>> {
    match fields
    case None => None
    case Some(f) => Some(Table(f, origin))
  }

  function Assign<V>(fields: Fields<V>, path: seq<string>, value: V): Option<Fields<V>>
    requires path != []
    decreases |path|, 0
  {
    Put(fields, path[0], AssignAt(Get(fields, path[0]), path[1..], value))
  }

  datatype Entry<V> = Entry(path: seq<string>, value: V)

  function Fill<V>(fields: Fields<V>, entries: seq<Entry<V>>): Option<Fields<V>>
    requires forall e | e in entries :: e.path != []
    decreases |entries|
  {
    if entries == [] then Some(fields)
    else
      match Assign(fields, entries[0].path, entries[0].value)
      case None => None
      case Some(next) => Fill(next, entries[1..])
  }

  // ----- Headers -----

  /** What a block whose header continues with `path` makes of the entry it starts at. */
  function OpenAt<V>(current: Option<Tree<V>>, path: seq<string>, isArray: bool, entries: seq<Entry<V>>): Option<Tree<V>>
    requires forall e | e in entries :: e.path != []
    decreases |path|
  {
    if path == [] then
      if isArray then
        match current
        case None => AddItem([], Fill(map[], entries))
        case Some(Tables(items)) => AddItem(items, Fill(map[], entries))
        case _ => None
      else
        match current
        case None => AsTable(Fill(map[], entries), Declared)
        case Some(Table(fields, Implied)) => AsTable(Fill(fields, entries), Declared)
        case _ => None
    else
      match current
      case None => AsTable(Open(map[], path, isArray, entries), Implied)
      case Some(Table(fields, origin)) => AsTable(Open(fields, path, isArray, entries), origin)
      case Some(Tables(items)) =>
        if items != [] && items[|items| - 1].Table? then
          var last := items[|items| - 1];
          ReplaceLast(items, AsTable(Open(last.fields, path, isArray, entries), last.origin))
        else None
      case Some(Leaf(_)) => None
  }

  function AddItem<V>(items: seq<Tree<V>>, fields: Option<Fields<V>>): Option<Tree<V>> {
    match fields
    case None => None
    case Some(f) => Some(Tables(items + [Table(f, Declared)]))
  }

  function ReplaceLast<V>(items: seq<Tree<V>>, last: Option<Tree<V>>): Option<Tree<V>>
    requires items != []
  {
    match last
    case None => None
    case Some(t) => Some(Tables(items[..|items| - 1] + [t]))
  }

  function Open<V>(fields: Fields<V>, path: seq<string>, isArray: bool, entries: seq<Entry<V>>): Option<Fields<V>>
    requires path != [] && forall e | e in entries :: e.path != []
    decreases |path|, 0
  {
    Put(fields, path[0], OpenAt(Get(fields, path[0]), path[1..], isArray, entries))
  }

  // ----- Reading blocks -----

  /** The values TOML accepts, and what they are, by the tokens of their lines. */
  datatype Reader<!V> = Reader(valid: seq<seq<Token>> -> bool, value: seq<seq<Token>> -> V)

  /** Where a section's header puts it: the root table has none, and a garbled one is no header of TOML. */
  datatype Heading = Top | Under(header: HeaderLine) | Garbled

  /** What the lines of a block say; `None` is a construct that is no key/value of TOML. */
  datatype Section = Section(heading: Heading, statements: seq<Option<Statement>>)

  function HeadingOf(line: string): (r: Heading)
    ensures !r.Top? && (r.Under? ==> r.header.path != [])
  {
    match ReadHeader(line)
    case None => Garbled
    case Some(h) => Under(h)
  }

  function Statements(kvs: seq<Kv>): (r: seq<Option<Statement>>)
    ensures |r| == |kvs| && forall i | 0 <= i < |r| :: r[i] == ReadStatement(kvs[i].lines)
  {
    seq(|kvs|, i requires 0 <= i < |kvs| => ReadStatement(kvs[i].lines))
  }

  function SectionOf(b: Block): Section {
    Section(match b.header case None => Top case Some(h) => HeadingOf(h.line), Statements(b.kvs))
  }

  predicate Readable<V>(s: Option<Statement>, reader: Reader<V>) {
    s.Some? && s.value.path != [] && reader.valid(s.value.value)
  }

  predicate AllReadable<V>(statements: seq<Option<Statement>>, reader: Reader<V>) {
    forall i | 0 <= i < |statements| :: Readable(statements[i], reader)
  }

  function EntryOf<V>(s: Option<Statement>, reader: Reader<V>): (e: Entry<V>)
    ensures e.path != []
  {
    match s
    case None => Entry([""], reader.value([]))
    case Some(x) => Entry(if x.path == [] then [""] else x.path, reader.value(x.value))
  }

  function EntriesOf<V>(statements: seq<Option<Statement>>, reader: Reader<V>): (r: seq<Entry<V>>)
    ensures |r| == |statements| && forall i | 0 <= i < |r| :: r[i] == EntryOf(statements[i], reader)
    ensures forall e | e in r :: e.path != []
  {
    seq(|statements|, i requires 0 <= i < |statements| => EntryOf(statements[i], reader))
  }

  function ApplySection<V>(fields: Fields<V>, s: Section, reader: Reader<V>): Option<Fields<V>> {
    if !AllReadable(s.statements, reader) then None
    else
      match s.heading
      case Top => Fill(fields, EntriesOf(s.statements, reader))
      case Under(h) => if h.path == [] then None else Open(fields, h.path, h.isArray, EntriesOf(s.statements, reader))
      case Garbled => None
  }

  function ApplyBlock<V>(fields: Fields<V>, b: Block, reader: Reader<V>): Option<Fields<V>> {
    ApplySection(fields, SectionOf(b), reader)
  }

  /** The document a list of blocks declares, or `None` when it is not valid TOML. */
  function Evaluate<V>(fields: Fields<V>, blocks: seq<Block>, reader: Reader<V>): Option<Fields<V>>
    decreases |blocks|
  {
    if blocks == [] then Some(fields)
    else
      match ApplyBlock(fields, blocks[0], reader)
      case None => None
      case Some(next) => Evaluate(next, blocks[1..], reader)
  }

  // ----- Assignments commute -----

  function ThenAssign<V>(fields: Option<Fields<V>>, path: seq<string>, value: V): Option<Fields<V>>
    requires path != []
  {
    match fields
    case None => None
    case Some(f) => Assign(f, path, value)
  }

  /**
   Two key/values may be written in either order: the table they build, or the
   conflict they make, is the same.
   */
  lemma {:induction false} AssignCommutes<V>(fields: Fields<V>, p: seq<string>, v: V, q: seq<string>, w: V)
    requires p != [] && q != []
    ensures ThenAssign(Assign(fields, p, v), q, w) == ThenAssign(Assign(fields, q, w), p, v)
    decreases |p|
  {
    if p[0] != q[0] {
      var a, b := AssignAt(Get(fields, p[0]), p[1..], v), AssignAt(Get(fields, q[0]), q[1..], w);
      if a.Some? && b.Some? {
        assert fields[p[0] := a.value][q[0] := b.value] == fields[q[0] := b.value][p[0] := a.value];
      }
    } else if p[1..] != [] && q[1..] != [] {
      var current := Get(fields, p[0]);
      if current.None? || (current.value.Table? && current.value.origin == Dotted) {
        var sub := if current.None? then map[] else current.value.fields;
        AssignCommutes(sub, p[1..], v, q[1..], w);
        UnderKey(fields, sub, p, v, q, w);
        UnderKey(fields, sub, q, w, p, v);
      }
    } else {
      if p[1..] == [] { LeafConflicts(fields, p, v, q, w); }
      if q[1..] == [] { LeafConflicts(fields, q, w, p, v); }
    }
  }

  /** A key that names a value clashes with every key that starts with it. */
  lemma LeafConflicts<V>(fields: Fields<V>, p: seq<string>, v: V, q: seq<string>, w: V)
    requires |p| == 1 && q != [] && p[0] == q[0]
    ensures ThenAssign(Assign(fields, p, v), q, w) == None
    ensures ThenAssign(Assign(fields, q, w), p, v) == None
  {
    var k := p[0];
    LeafAssign(fields, p, v);
    var a, b := Assign(fields, p, v), Assign(fields, q, w);
    if a.Some? {
      assert Get(a.value, k) == Some(Leaf(v));
      assert AssignAt(Some(Leaf(v)), q[1..], w) == None;
    }
    if b.Some? {
      LeafAssign(b.value, p, v);
      assert Get(b.value, k).Some?;
    }
  }

  lemma LeafAssign<V>(fields: Fields<V>, p: seq<string>, v: V)
    requires |p| == 1
    ensures Assign(fields, p, v) == if p[0] in fields then None else Some(fields[p[0] := Leaf(v)])
  {
    assert p[1..] == [];
  }

  /** Two assignments below the same key are two assignments in the table under it. */
  lemma UnderKey<V>(fields: Fields<V>, sub: Fields<V>, p: seq<string>, v: V, q: seq<string>, w: V)
    requires |p| > 1 && |q| > 1 && p[0] == q[0]
    requires (Get(fields, p[0]) == None && sub == map[]) || Get(fields, p[0]) == Some(Table(sub, Dotted))
    ensures ThenAssign(Assign(fields, p, v), q, w)
         == Put(fields, p[0], AsTable(ThenAssign(Assign(sub, p[1..], v), q[1..], w), Dotted))
  {
    var once := Assign(sub, p[1..], v);
    if once.Some? {
      var k := p[0];
      var f := fields[k := Table(once.value, Dotted)];
      assert Assign(fields, p, v) == Some(f);
      var twice := Assign(once.value, q[1..], w);
      assert Get(f, k) == Some(Table(once.value, Dotted));
      assert Assign(f, q, w) == Put(f, k, AsTable(twice, Dotted));
      if twice.Some? {
        assert f[k := Table(twice.value, Dotted)] == fields[k := Table(twice.value, Dotted)];
      }
    }
  }

  // ----- Any order of the key/values in a block -----

  function ThenFill<V>(fields: Option<Fields<V>>, entries: seq<Entry<V>>): Option<Fields<V>>
    requires forall e | e in entries :: e.path != []
  {
    match fields
    case None => None
    case Some(f) => Fill(f, entries)
  }

  lemma {:induction false} FillConcat<V>(fields: Fields<V>, a: seq<Entry<V>>, b: seq<Entry<V>>)
    requires forall e | e in a + b :: e.path != []
    ensures (forall e | e in a :: e in a + b) && (forall e | e in b :: e in a + b)
    ensures Fill(fields, a + b) == ThenFill(Fill(fields, a), b)
    decreases |a|
  {
    if a == [] {
      assert a + b == b;
    } else {
      assert (a + b)[0] == a[0] && (a + b)[1..] == a[1..] + b;
      var next := Assign(fields, a[0].path, a[0].value);
      if next.Some? { FillConcat(next.value, a[1..], b); }
    }
  }

  /** The key/values of a block as table entries. */
  function KvEntries<V>(kvs: seq<Kv>, reader: Reader<V>): (r: seq<Entry<V>>)
    ensures |r| == |kvs| && forall i | 0 <= i < |r| :: r[i] == EntryOf(ReadStatement(kvs[i].lines), reader)
    ensures forall e | e in r :: e.path != []
  {
    EntriesOf(Statements(kvs), reader)
  }

  lemma EntriesConcat<V>(a: seq<Kv>, b: seq<Kv>, reader: Reader<V>)
    ensures KvEntries(a + b, reader) == KvEntries(a, reader) + KvEntries(b, reader)
  {
    hide EntryOf, ReadStatement;
  }

  lemma FillSwap<V>(fields: Fields<V>, x: Entry<V>, y: Entry<V>)
    requires x.path != [] && y.path != []
    ensures (forall e | e in [x, y] :: e.path != []) && (forall e | e in [y, x] :: e.path != [])
    ensures Fill(fields, [x, y]) == Fill(fields, [y, x])
  {
    FillTwo(fields, x, y);
    FillTwo(fields, y, x);
    AssignCommutes(fields, x.path, x.value, y.path, y.value);
  }

  lemma FillTwo<V>(fields: Fields<V>, x: Entry<V>, y: Entry<V>)
    requires x.path != [] && y.path != []
    ensures (forall e | e in [x, y] :: e.path != [])
    ensures Fill(fields, [x, y]) == ThenAssign(Assign(fields, x.path, x.value), y.path, y.value)
  {
    hide Assign;
    var next := Assign(fields, x.path, x.value);
    assert [x, y][1..] == [y] && [y][1..] == [];
    if next.Some? {
      var last := Assign(next.value, y.path, y.value);
      assert Fill(next.value, [y]) == last;
    }
  }

  /** Where a key/value is inserted among the others does not matter. */
  lemma {:induction false} FillInsert<V>(fields: Fields<V>, kvs: seq<Kv>, x: Kv, rank: Kv -> int, reader: Reader<V>)
    ensures Fill(fields, KvEntries(Sorting.Insert(kvs, x, rank), reader)) == Fill(fields, KvEntries(kvs + [x], reader))
    decreases |kvs|
  {
    hide Fill, KvEntries, ThenFill;
    if kvs != [] && rank(x) < rank(kvs[|kvs| - 1]) {
      var front, last := kvs[..|kvs| - 1], kvs[|kvs| - 1];
      var inserted := Sorting.Insert(front, x, rank);
      FillInsert(fields, front, x, rank, reader);
      FillAppend(fields, inserted, [last], reader);
      FillAppend(fields, front + [x], [last], reader);
      assert front + [x] + [last] == front + [x, last];
      FillLastTwo(fields, front, x, last, reader);
      assert front + [last, x] == kvs + [x];
    }
  }

  lemma FillAppend<V>(fields: Fields<V>, a: seq<Kv>, b: seq<Kv>, reader: Reader<V>)
    ensures Fill(fields, KvEntries(a + b, reader)) == ThenFill(Fill(fields, KvEntries(a, reader)), KvEntries(b, reader))
  {
    hide Fill, KvEntries, ThenFill;
    EntriesConcat(a, b, reader);
    FillConcat(fields, KvEntries(a, reader), KvEntries(b, reader));
  }

  lemma FillLastTwo<V>(fields: Fields<V>, front: seq<Kv>, x: Kv, y: Kv, reader: Reader<V>)
    ensures Fill(fields, KvEntries(front + [x, y], reader)) == Fill(fields, KvEntries(front + [y, x], reader))
  {
    hide Fill, EntryOf, ReadStatement;
    FillAppend(fields, front, [x, y], reader);
    FillAppend(fields, front, [y, x], reader);
    var a, b := KvEntries([x], reader)[0], KvEntries([y], reader)[0];
    assert a in KvEntries([x], reader) && b in KvEntries([y], reader);
    assert KvEntries([x, y], reader) == [a, b] && KvEntries([y, x], reader) == [b, a];
    var g := Fill(fields, KvEntries(front, reader));
    if g.Some? { FillSwap(g.value, a, b); }
  }

  /** SEP-1 field order fills a table with the same entries. */
  lemma {:induction false} FillSorted<V>(fields: Fields<V>, kvs: seq<Kv>, rank: Kv -> int, reader: Reader<V>)
    ensures Fill(fields, KvEntries(Sorting.StableSort(kvs, rank), reader)) == Fill(fields, KvEntries(kvs, reader))
    decreases |kvs|
  {
    hide Fill, KvEntries, ThenFill, Sorting.Insert;
    if kvs != [] {
      var front, last := kvs[..|kvs| - 1], kvs[|kvs| - 1];
      var sorted := Sorting.StableSort(front, rank);
      FillSorted(fields, front, rank, reader);
      FillInsert(fields, sorted, last, rank, reader);
      FillAppend(fields, sorted, [last], reader);
      FillAppend(fields, front, [last], reader);
      assert kvs == front + [last];
    }
  }

  // ----- Ordered key/values inside any block -----

  function OrderedBlock(b: Block): Block {
    b.(kvs := OrderKvs(b))
  }

  lemma {:induction false} OpenSameFill<V>(current: Option<Tree<V>>, path: seq<string>, isArray: bool,
                                           a: seq<Entry<V>>, b: seq<Entry<V>>)
    requires (forall e | e in a :: e.path != []) && (forall e | e in b :: e.path != [])
    requires forall f: Fields<V> :: Fill(f, a) == Fill(f, b)
    ensures OpenAt(current, path, isArray, a) == OpenAt(current, path, isArray, b)
    decreases |path|
  {
    hide Fill;
    if path != [] {
      var sub: Fields<V> :=
        match current
        case Some(Table(fields, _)) => fields
        case Some(Tables(items)) => if items != [] && items[|items| - 1].Table? then items[|items| - 1].fields else map[]
        case _ => map[];
      OpenSameFill(Get(sub, path[0]), path[1..], isArray, a, b);
    }
  }

  lemma SortedReadable<V>(b: Block, reader: Reader<V>)
    ensures AllReadable(Statements(OrderKvs(b)), reader) <==> AllReadable(Statements(b.kvs), reader)
  {
    hide Readable, ReadStatement, FieldTable, FieldRank;
    var table := FieldTable(b.name);
    var sorted := OrderKvs(b);
    Sorting.StableSortCorrect(b.kvs, (kv: Kv) => FieldRank(table, kv.key));
    ReadableMembers(sorted, reader);
    ReadableMembers(b.kvs, reader);
    assert forall kv :: kv in sorted <==> kv in multiset(sorted);
    assert forall kv :: kv in b.kvs <==> kv in multiset(b.kvs);
  }

  lemma ReadableMembers<V>(kvs: seq<Kv>, reader: Reader<V>)
    ensures AllReadable(Statements(kvs), reader) <==> forall kv | kv in kvs :: Readable(ReadStatement(kv.lines), reader)
  {
    hide Readable, ReadStatement;
    if AllReadable(Statements(kvs), reader) {
      forall kv | kv in kvs ensures Readable(ReadStatement(kv.lines), reader) {
        var i :| 0 <= i < |kvs| && kvs[i] == kv;
        assert Readable(Statements(kvs)[i], reader);
      }
    }
  }

  lemma OrderedFill<V>(fields: Fields<V>, b: Block, reader: Reader<V>)
    ensures Fill(fields, KvEntries(OrderKvs(b), reader)) == Fill(fields, KvEntries(b.kvs, reader))
  {
    hide Fill, KvEntries, FieldRank, FieldTable;
    var table := FieldTable(b.name);
    FillSorted(fields, b.kvs, (kv: Kv) => FieldRank(table, kv.key), reader);
  }

  /** The top-level key TOML reads a block's header under. */
  function Head(b: Block): Option<string> {
    match SectionOf(b).heading
    case Under(h) => if h.path == [] then None else Some(h.path[0])
    case _ => None
  }

  lemma ApplyTop<V>(fields: Fields<V>, b: Block, reader: Reader<V>)
    requires b.header.None?
    ensures ApplyBlock(fields, b, reader)
         == if AllReadable(Statements(b.kvs), reader) then Fill(fields, KvEntries(b.kvs, reader)) else None
  {
    hide Fill, Statements, EntriesOf, AllReadable, EntryOf;
  }

  lemma ApplyPut<V>(fields: Fields<V>, b: Block, reader: Reader<V>)
    requires b.header.Some?
    ensures ApplyBlock(fields, b, reader) ==
      if Head(b).None? || !AllReadable(Statements(b.kvs), reader) then None
      else
        var h := SectionOf(b).heading.header;
        Put(fields, h.path[0], OpenAt(Get(fields, h.path[0]), h.path[1..], h.isArray, KvEntries(b.kvs, reader)))
  {
    hide OpenAt, Statements, EntriesOf, HeadingOf, AllReadable, EntryOf;
  }

  lemma OrderedBlockSame<V>(fields: Fields<V>, b: Block, reader: Reader<V>)
    ensures ApplyBlock(fields, OrderedBlock(b), reader) == ApplyBlock(fields, b, reader)
  {
    hide Fill, OpenAt, KvEntries, HeadingOf, OrderKvs, Statements, AllReadable, ApplyBlock;
    SortedReadable(b, reader);
    forall f: Fields<V> ensures Fill(f, KvEntries(OrderKvs(b), reader)) == Fill(f, KvEntries(b.kvs, reader)) {
      OrderedFill(f, b, reader);
    }
    if b.header.None? {
      ApplyTop(fields, b, reader);
      ApplyTop(fields, OrderedBlock(b), reader);
    } else {
      ApplyPut(fields, b, reader);
      ApplyPut(fields, OrderedBlock(b), reader);
      if Head(b).Some? {
        var h := SectionOf(b).heading.header;
        OpenSameFill(Get(fields, h.path[0]), h.path[1..], h.isArray, KvEntries(OrderKvs(b), reader), KvEntries(b.kvs, reader));
      }
    }
  }

  // ----- Any order of blocks under different keys -----

  ghost predicate Headed(blocks: seq<Block>) {
    forall b | b in blocks :: b.header.Some?
  }

  predicate SameHead(x: Block, y: Block) {
    Head(x).Some? && Head(x) == Head(y)
  }

  /** Headers that TOML reads under the same top-level key have the same SEP-1 rank. */
  ghost predicate HeadsAgree(blocks: seq<Block>) {
    forall x, y | x in blocks && y in blocks && SameHead(x, y) :: SectionRank(x.name) == SectionRank(y.name)
  }

  lemma OpenSwap<V>(fields: Fields<V>, k: string, l: string, a: Option<Tree<V>>, b: Option<Tree<V>>)
    requires k != l && a.Some? && b.Some?
    ensures Get(fields[k := a.value], l) == Get(fields, l) && Get(fields[l := b.value], k) == Get(fields, k)
    ensures Put(fields[k := a.value], l, b) == Put(fields[l := b.value], k, a)
  {
    assert fields[k := a.value][l := b.value] == fields[l := b.value][k := a.value];
  }

  lemma {:induction false} EvaluateConcat<V>(fields: Fields<V>, a: seq<Block>, b: seq<Block>, reader: Reader<V>)
    ensures Evaluate(fields, a + b, reader)
         == match Evaluate(fields, a, reader) case None => None case Some(f) => Evaluate(f, b, reader)
    decreases |a|
  {
    hide ApplyBlock;
    if a == [] {
      assert a + b == b;
    } else {
      assert (a + b)[0] == a[0] && (a + b)[1..] == a[1..] + b;
      var next := ApplyBlock(fields, a[0], reader);
      if next.Some? { EvaluateConcat(next.value, a[1..], b, reader); }
    }
  }

  lemma {:induction false} EvaluateTwo<V>(fields: Fields<V>, x: Block, y: Block, reader: Reader<V>)
    ensures Evaluate(fields, [x, y], reader)
         == match ApplyBlock(fields, x, reader) case None => None case Some(f) => ApplyBlock(f, y, reader)
  {
    hide ApplyBlock;
    assert [x, y][1..] == [y] && [y][1..] == [];
    var f := ApplyBlock(fields, x, reader);
    if f.Some? {
      var g := ApplyBlock(f.value, y, reader);
      assert Evaluate(f.value, [y], reader) == g;
    }
  }

  /** Blocks under different top-level keys may be written in either order. */
  lemma BlocksSwap<V>(fields: Fields<V>, x: Block, y: Block, reader: Reader<V>)
    requires x.header.Some? && y.header.Some? && !SameHead(x, y)
    ensures Evaluate(fields, [x, y], reader) == Evaluate(fields, [y, x], reader)
  {
    hide ApplyBlock, OpenAt, KvEntries, Statements, Evaluate, AllReadable, HeadingOf;
    EvaluateTwo(fields, x, y, reader);
    EvaluateTwo(fields, y, x, reader);
    ApplyPut(fields, x, reader);
    ApplyPut(fields, y, reader);
    if Head(x).Some? && Head(y).Some? && AllReadable(Statements(x.kvs), reader) && AllReadable(Statements(y.kvs), reader) {
      var h, g := SectionOf(x).heading.header, SectionOf(y).heading.header;
      var a := OpenAt(Get(fields, h.path[0]), h.path[1..], h.isArray, KvEntries(x.kvs, reader));
      var b := OpenAt(Get(fields, g.path[0]), g.path[1..], g.isArray, KvEntries(y.kvs, reader));
      if a.Some? { ApplyPut(fields[h.path[0] := a.value], y, reader); }
      if b.Some? { ApplyPut(fields[g.path[0] := b.value], x, reader); }
      if a.Some? && b.Some? { OpenSwap(fields, h.path[0], g.path[0], a, b); }
    } else {
      var a, b := ApplyBlock(fields, x, reader), ApplyBlock(fields, y, reader);
      if a.Some? { ApplyPut(a.value, y, reader); }
      if b.Some? { ApplyPut(b.value, x, reader); }
    }
  }

  lemma {:induction false} EvaluateInsert<V>(fields: Fields<V>, front: seq<Block>, bs: seq<Block>, x: Block,
                                             rank: Block -> int, reader: Reader<V>)
    requires Headed(bs + [x]) && HeadsAgree(bs + [x]) && forall b: Block :: rank(b) == SectionRank(b.name)
    ensures Evaluate(fields, front + Sorting.Insert(bs, x, rank), reader) == Evaluate(fields, front + bs + [x], reader)
    decreases |bs|
  {
    hide Evaluate, SameHead, SectionRank;
    if bs == [] || rank(bs[|bs| - 1]) <= rank(x) {
      assert front + (bs + [x]) == front + bs + [x];
    } else {
      var init, last := bs[..|bs| - 1], bs[|bs| - 1];
      var inserted := Sorting.Insert(init, x, rank);
      assert x in bs + [x] && last in bs + [x] && forall b | b in init + [x] :: b in bs + [x];
      EvaluateInsert(fields, front, init, x, rank, reader);
      assert front + (inserted + [last]) == (front + inserted) + [last];
      EvaluateConcat(fields, front + inserted, [last], reader);
      EvaluateConcat(fields, front + init + [x], [last], reader);
      assert front + init + [x] + [last] == (front + init) + [x, last];
      assert front + bs + [x] == (front + init) + [last, x];
      EvaluateConcat(fields, front + init, [x, last], reader);
      EvaluateConcat(fields, front + init, [last, x], reader);
      var g := Evaluate(fields, front + init, reader);
      if g.Some? { BlocksSwap(g.value, x, last, reader); }
    }
  }

  lemma SortedHeads(bs: seq<Block>, x: Block, rank: Block -> int)
    requires Headed(bs + [x]) && HeadsAgree(bs + [x])
    ensures Headed(Sorting.StableSort(bs, rank) + [x]) && HeadsAgree(Sorting.StableSort(bs, rank) + [x])
  {
    hide SameHead, SectionRank;
    Sorting.StableSortCorrect(bs, rank);
    forall b | b in Sorting.StableSort(bs, rank) + [x] ensures b in bs + [x] {
      assert b in multiset(Sorting.StableSort(bs, rank)) || b == x;
    }
  }

  lemma {:induction false} EvaluateSorted<V>(fields: Fields<V>, front: seq<Block>, bs: seq<Block>,
                                             rank: Block -> int, reader: Reader<V>)
    requires Headed(bs) && HeadsAgree(bs) && forall b: Block :: rank(b) == SectionRank(b.name)
    ensures Evaluate(fields, front + Sorting.StableSort(bs, rank), reader) == Evaluate(fields, front + bs, reader)
    decreases |bs|
  {
    hide Evaluate, SameHead, SectionRank, Sorting.Insert;
    if bs == [] {
      assert Sorting.StableSort(bs, rank) == bs;
    } else {
      var init, last := bs[..|bs| - 1], bs[|bs| - 1];
      var sorted := Sorting.StableSort(init, rank);
      assert init + [last] == bs;
      EvaluateSorted(fields, front, init, rank, reader);
      SortedHeads(init, last, rank);
      EvaluateInsert(fields, front, sorted, last, rank, reader);
      EvaluateConcat(fields, front + sorted, [last], reader);
      EvaluateConcat(fields, front + init, [last], reader);
      assert front + init + [last] == front + bs;
    }
  }

  /** The blocks in the order, and with the key/values in the order, that `render` writes them. */
  function Laid(blocks: seq<Block>): seq<Block> {
    if blocks == [] then [] else [OrderedBlock(blocks[0])] + Laid(blocks[1..])
  }

  lemma {:induction false} EvaluateLaid<V>(fields: Fields<V>, blocks: seq<Block>, reader: Reader<V>)
    ensures Evaluate(fields, Laid(blocks), reader) == Evaluate(fields, blocks, reader)
    decreases |blocks|
  {
    hide ApplyBlock, OrderedBlock;
    if blocks != [] {
      OrderedBlockSame(fields, blocks[0], reader);
      assert Laid(blocks)[1..] == Laid(blocks[1..]);
      var next := ApplyBlock(fields, blocks[0], reader);
      if next.Some? { EvaluateLaid(next.value, blocks[1..], reader); }
    }
  }

  /** The shape of a scanned document: the root block, and blocks with headers. */
  ghost predicate Scanned(blocks: seq<Block>) {
    blocks != [] && blocks[0].name == "" && blocks[0].header.None? && Headed(blocks[1..])
  }

  lemma RootFirst(b: Block)
    ensures SectionRank("") == -1 <= SectionRank(b.name)
  {
  }

  /**
   SEP-1 ordering declares the same document: the same tables, arrays of tables and
   values, or the same parse error, when headers under the same top-level key have the
   same rank.
   */
  lemma ReorderPreservesMeaning<V>(blocks: seq<Block>, reader: Reader<V>)
    requires Scanned(blocks) && HeadsAgree(blocks)
    ensures Evaluate(map[], Laid(OrderBlocks(blocks)), reader) == Evaluate(map[], blocks, reader)
  {
    hide Evaluate, SameHead, SectionRank;
    var rank := (b: Block) => SectionRank(b.name);
    var root, bs := blocks[0], blocks[1..];
    forall i | 0 <= i < |bs| ensures rank(root) <= rank(bs[i]) { RootFirst(bs[i]); }
    Sorting.SortBehind(root, bs, rank);
    assert blocks == [root] + bs;
    EvaluateSorted(map[], [root], bs, rank, reader);
    EvaluateLaid(map[], OrderBlocks(blocks), reader);
  }

  // ----- Headers that agree -----

  /** A header as the formatter writes it. */
  predicate Bracketed(b: Block) {
    b.header.Some? && (b.header.value.line == "[" + b.name + "]" || b.header.value.line == "[[" + b.name + "]]")
  }

  /** Written headers whose first segments are bare agree, whatever they are. */
  lemma BareHeadsAgree(blocks: seq<Block>)
    requires forall b | b in blocks && b.header.Some? :: Bracketed(b) && IsBare(Split(b.name, '.')[0])
    ensures HeadsAgree(blocks)
  {
    hide IsBare, Split, Bracketed, Head;
    EmptyIsNotBare();
    forall b | b in blocks && Head(b).Some? ensures b.name != "" && Head(b) == Some(Split(b.name, '.')[0]) {
      HeadHasHeader(b);
      BareHead(b);
    }
  }

  lemma HeadHasHeader(b: Block)
    ensures Head(b).Some? ==> b.header.Some?
  {
  }

  lemma EmptyIsNotBare()
    ensures !IsBare(Split("", '.')[0])
  {
  }

  /** A bare first segment is read as it is written. */
  lemma BareHead(b: Block)
    requires Bracketed(b) && IsBare(Split(b.name, '.')[0]) && Head(b).Some?
    ensures Head(b) == Some(Split(b.name, '.')[0])
  {
    hide IsBare, Trim, Read, PathUpToCloser, Split;
    var l, w := b.header.value.line, Split(b.name, '.')[0];
    var rest := FirstSegmentOf(b.name);
    BareStart(w);
    BracketsTrimmed(l);
    TrimFixed(l);
    var close := if IsArrayHeader(l) then "]]" else "]";
    assert l[1] == if l == "[" + b.name + "]" then w[0] else '[';
    assert l[|Opening(l)|..] == w + (rest + close);
    BareFirst(w, rest + close, |Opening(l)|);
  }

  lemma BareStart(w: string)
    requires IsBare(w)
    ensures w != "" && w[0] != '['
  {
    assert w[0] in w;
  }

  lemma {:induction false} FirstSegmentOf(s: string) returns (rest: string)
    ensures s == Split(s, '.')[0] + rest && (rest == "" || rest[0] == '.')
  {
    if s == "" || s[0] == '.' {
      rest := s;
    } else {
      rest := FirstSegmentOf(s[1..]);
      assert s == [s[0]] + s[1..];
    }
  }

  // ----- Headers that do not agree -----

  const ARRAY_BLOCK := Block("CURRENCIES", Some(Header("[[CURRENCIES]]", [])), [])

  const PADDED_BLOCK := Block("CURRENCIES .extra", Some(Header("[CURRENCIES .extra]", [])), [])

  function CodeKv(code: string): Kv {
    Kv("code", [TextLine("code", code)], [], false, 0)
  }

  /** What is stored for `[[CURRENCIES]] # first` and a key/value below it. */
  const COMMENTED_BLOCK := Block("CURRENCIES]] # fir", Some(Header("[[CURRENCIES]] # fir]]", [])), [CodeKv("A")])

  const UNCOMMENTED_BLOCK := ARRAY_BLOCK.(kvs := [CodeKv("B")])

  lemma CommentedName()
    ensures HeaderName("[[CURRENCIES]] # first") == "CURRENCIES]] # fir"
    ensures NormaliseHeader("[[CURRENCIES]] # first") == "[[CURRENCIES]] # fir]]"
  {
    hide Trim, IsSpace, Middle;
    var t, name := "[[CURRENCIES]] # first", "CURRENCIES]] # fir";
    assert t == "[[" + name + "st" && t[..2] == "[[";
    MiddleParts("[[", name, "st");
    assert name[0] == 'C' && name[|name| - 1] == 'r';
    LettersAreNoSpace();
    TrimFixed(name);
    assert "[[" + name + "]]" == "[[CURRENCIES]] # fir]]";
  }

  lemma LettersAreNoSpace()
    ensures !IsSpace('C') && !IsSpace('r')
  {
  }

  lemma ArrayHeading()
    ensures HeadingOf("[[CURRENCIES]]") == Under(HeaderLine(true, ["CURRENCIES"]))
  {
    hide Read, Trim, ReadHeader;
    var t := "[[CURRENCIES]]";
    BracketsTrimmed(t);
    TrimFixed(t);
    ClosersRead();
    assert t[..2] == "[[" && t == "[[" + "CURRENCIES" + "]]";
    WordHeader(t, "CURRENCIES", "]]", false);
  }

  lemma CommentedRest()
    ensures Shape(Read("]] # fir]]", Outside), [], 2, true)
  {
    hide Read, StripBlanks, IsSpace;
    var rest := "]] # fir]]";
    assert rest[1..] == "] # fir]]" && rest[1..][1..] == " # fir]]" && " # fir]]"[1..] == "# fir]]";
    DotIsNoSpace();
    PlainRead(rest);
    PlainRead(rest[1..]);
    SpaceIsSpace();
    SpaceRead(" # fir]]");
    NoteRead("# fir]]");
  }

  lemma CommentedHeading()
    ensures HeadingOf("[[CURRENCIES]] # fir]]") == Under(HeaderLine(true, ["CURRENCIES"]))
  {
    hide Read, Trim, ReadHeader, Shape;
    var t, rest := "[[CURRENCIES]] # fir]]", "]] # fir]]";
    BracketsTrimmed(t);
    TrimFixed(t);
    CommentedRest();
    assert t[..2] == "[[" && t == "[[" + "CURRENCIES" + rest;
    WordHeader(t, "CURRENCIES", rest, true);
  }

  lemma PaddedHeading()
    ensures HeadingOf("[CURRENCIES .extra]") == Under(HeaderLine(false, ["CURRENCIES", "extra"]))
  {
    hide Read, Trim, ReadHeader;
    var t := "[CURRENCIES .extra]";
    BracketsTrimmed(t);
    TrimFixed(t);
    ClosersRead();
    assert t[1] == 'C' && t == "[" + "CURRENCIES" + " ." + "extra" + "]";
    TwoWordHeader(t, "CURRENCIES", "extra", "]");
  }

  lemma IndexInFour(a: string, b: string, c: string, d: string, x: string)
    ensures IndexIn([a, b, c, d], x) == if x == a then 0 else if x == b then 1 else if x == c then 2 else if x == d then 3 else 4
  {
    assert [a, b, c, d][1..] == [b, c, d] && [b, c, d][1..] == [c, d] && [c, d][1..] == [d] && [d][1..] == [];
    assert IndexIn([d], x) == if x == d then 0 else 1;
    assert IndexIn([c, d], x) == if x == c then 0 else 1 + IndexIn([d], x);
    assert IndexIn([b, c, d], x) == if x == b then 0 else 1 + IndexIn([c, d], x);
  }

  lemma {:induction false} Ranks(other: string)
    requires forall i | 0 <= i < |TABLE_ORDER| :: |TABLE_ORDER[i]| != |other|
    ensures IndexIn(TABLE_ORDER, "CURRENCIES") == 2 && IndexIn(TABLE_ORDER, other) == 4
  {
    hide IndexIn;
    assert TABLE_ORDER == [TABLE_ORDER[0], TABLE_ORDER[1], TABLE_ORDER[2], TABLE_ORDER[3]];
    IndexInFour(TABLE_ORDER[0], TABLE_ORDER[1], TABLE_ORDER[2], TABLE_ORDER[3], other);
    IndexInFour(TABLE_ORDER[0], TABLE_ORDER[1], TABLE_ORDER[2], TABLE_ORDER[3], "CURRENCIES");
    assert TABLE_ORDER[0][0] == 'D' && TABLE_ORDER[1][0] == 'P' && "CURRENCIES"[0] == 'C';
  }

  lemma WitnessRanks()
    ensures SectionRank(ROOT.name) == -1 && SectionRank("CURRENCIES") == 2
    ensures SectionRank("CURRENCIES .extra") == 4 && SectionRank("CURRENCIES]] # fir") == 4
  {
    hide Split, IndexIn;
    SplitOfHead("CURRENCIES", '.', "");
    SplitOfHead("CURRENCIES ", '.', "extra");
    SplitOfHead("CURRENCIES]] # fir", '.', "");
    assert "CURRENCIES .extra" == "CURRENCIES " + "." + "extra";
    assert forall i | 0 <= i < |TABLE_ORDER| :: |TABLE_ORDER[i]| != |"CURRENCIES "|;
    assert forall i | 0 <= i < |TABLE_ORDER| :: |TABLE_ORDER[i]| != |"CURRENCIES]] # fir"|;
    Ranks("CURRENCIES ");
    Ranks("CURRENCIES]] # fir");
  }

  lemma PaddedOrder()
    ensures OrderBlocks([ROOT, ARRAY_BLOCK, PADDED_BLOCK, ARRAY_BLOCK])
         == [ROOT, ARRAY_BLOCK, ARRAY_BLOCK, PADDED_BLOCK]
  {
    hide SectionRank;
    WitnessRanks();
    var rank := (b: Block) => SectionRank(b.name);
    var three := [ROOT, ARRAY_BLOCK, PADDED_BLOCK];
    Sorting.SortOfSorted(three, rank);
    var four := [ROOT, ARRAY_BLOCK, PADDED_BLOCK, ARRAY_BLOCK];
    assert four[..3] == three && three[..2] == [ROOT, ARRAY_BLOCK];
    assert Sorting.Insert([ROOT, ARRAY_BLOCK], ARRAY_BLOCK, rank) == [ROOT, ARRAY_BLOCK, ARRAY_BLOCK];
  }

  lemma CommentedOrder()
    ensures OrderBlocks([ROOT, COMMENTED_BLOCK, UNCOMMENTED_BLOCK]) == [ROOT, UNCOMMENTED_BLOCK, COMMENTED_BLOCK]
  {
    hide SectionRank, CodeKv;
    WitnessRanks();
    var rank := (b: Block) => SectionRank(b.name);
    var two, three := [ROOT, COMMENTED_BLOCK], [ROOT, COMMENTED_BLOCK, UNCOMMENTED_BLOCK];
    Sorting.SortOfSorted(two, rank);
    assert three[..2] == two && two[..1] == [ROOT];
    assert Sorting.Insert([ROOT], UNCOMMENTED_BLOCK, rank) == [ROOT, UNCOMMENTED_BLOCK];
  }

  /** A block under the array's own header adds an item. */
  lemma ItemApply<V>(fields: Fields<V>, items: seq<Tree<V>>, b: Block, f: Fields<V>, reader: Reader<V>)
    requires Get(fields, "CURRENCIES") == (if items == [] then None else Some(Tables(items)))
    requires b.header.Some? && HeadingOf(b.header.value.line) == Under(HeaderLine(true, ["CURRENCIES"]))
    requires AllReadable(Statements(b.kvs), reader) && Fill(map[], KvEntries(b.kvs, reader)) == Some(f)
    ensures ApplyBlock(fields, b, reader) == Some(fields["CURRENCIES" := Tables(items + [Table(f, Declared)])])
  {
    hide AllReadable, Statements, KvEntries, HeadingOf, Fill, ApplyBlock;
    ApplyPut(fields, b, reader);
    assert ["CURRENCIES"][1..] == [];
    ItemOpen(items, KvEntries(b.kvs, reader), f);
  }

  lemma ItemOpen<V>(items: seq<Tree<V>>, entries: seq<Entry<V>>, f: Fields<V>)
    requires (forall e | e in entries :: e.path != []) && Fill(map[], entries) == Some(f)
    ensures OpenAt(if items == [] then None else Some(Tables(items)), [], true, entries)
         == Some(Tables(items + [Table(f, Declared)]))
  {
    hide Fill;
  }

  lemma ArrayApply<V>(fields: Fields<V>, items: seq<Tree<V>>, reader: Reader<V>)
    requires Get(fields, "CURRENCIES") == (if items == [] then None else Some(Tables(items)))
    ensures ApplyBlock(fields, ARRAY_BLOCK, reader)
         == Some(fields["CURRENCIES" := Tables(items + [Table(map[], Declared)])])
  {
    hide HeadingOf, ApplyBlock;
    ArrayHeading();
    ItemApply(fields, items, ARRAY_BLOCK, map[], reader);
  }

  lemma PaddedApply<V>(fields: Fields<V>, front: seq<Tree<V>>, reader: Reader<V>)
    requires Get(fields, "CURRENCIES") == Some(Tables(front + [Table(map[], Declared)]))
    ensures ApplyBlock(fields, PADDED_BLOCK, reader)
         == Some(fields["CURRENCIES" := Tables(front + [Table(map["extra" := Table(map[], Declared)], Declared)])])
  {
    hide HeadingOf, ApplyBlock, OpenAt, Put;
    PaddedHeading();
    assert ["CURRENCIES", "extra"][1..] == ["extra"];
    assert KvEntries<V>([], reader) == [];
    ApplyPut(fields, PADDED_BLOCK, reader);
    ExtraOpenAt(front);
    PutSome(fields, "CURRENCIES", Tables(front + [Table(map["extra" := Table(map[], Declared)], Declared)]));
  }

  lemma PutSome<V>(fields: Fields<V>, key: string, tree: Tree<V>)
    ensures Put(fields, key, Some(tree)) == Some(fields[key := tree])
  {
  }

  lemma ExtraOpenAt<V>(front: seq<Tree<V>>)
    ensures OpenAt(Some(Tables(front + [Table(map[], Declared)])), ["extra"], false, [])
         == Some(Tables(front + [Table(map["extra" := Table(map[], Declared)], Declared)]))
  {
    hide Open;
    var items: seq<Tree<V>> := front + [Table(map[], Declared)];
    assert items[..|items| - 1] == front;
    ExtraOpen<V>();
  }

  lemma ExtraOpen<V>()
    ensures var empty: Fields<V> := map[];
      Open(empty, ["extra"], false, []) == Some(map["extra" := Table(map[], Declared)])
  {
    var empty: Fields<V> := map[];
    assert ["extra"][1..] == [];
    assert empty["extra" := Table(map[], Declared)] == map["extra" := Table(map[], Declared)];
  }

  lemma EvaluateFour<V>(w: Block, x: Block, y: Block, z: Block, f: Fields<V>, g: Fields<V>, h: Fields<V>,
                        k: Fields<V>, reader: Reader<V>)
    requires ApplyBlock(map[], w, reader) == Some(f) && ApplyBlock(f, x, reader) == Some(g)
    requires ApplyBlock(g, y, reader) == Some(h) && ApplyBlock(h, z, reader) == Some(k)
    ensures Evaluate(map[], [w, x, y, z], reader) == Some(k)
  {
    hide ApplyBlock;
    assert [w, x, y, z] == [w, x] + [y, z];
    EvaluateConcat(map[], [w, x], [y, z], reader);
    EvaluateTwo(map[], w, x, reader);
    EvaluateTwo(g, y, z, reader);
  }

  /**
   With a padded first segment the sort separates a subtable from the array element
   it belongs to: the reordered blocks are valid, but declare another document.
   */
  lemma PaddedHeadChangesMeaning<V>(reader: Reader<V>)
    ensures var blocks := [ROOT, ARRAY_BLOCK, PADDED_BLOCK, ARRAY_BLOCK];
      && Evaluate(map[], blocks, reader).Some?
      && Evaluate(map[], OrderBlocks(blocks), reader).Some?
      && Evaluate(map[], OrderBlocks(blocks), reader) != Evaluate(map[], blocks, reader)
  {
    hide ApplyBlock, Evaluate, OrderBlocks;
    PaddedOrder();
    var e: Fields<V> := map[];
    var t: Tree<V> := Table(map[], Declared);
    var x: Tree<V> := Table(map["extra" := t], Declared);
    RootApply(reader);
    ArrayApply(e, [], reader);
    assert [] + [t] == [t] && [] + [x] == [x];
    var one := e["CURRENCIES" := Tables([t])];
    PaddedApply(one, [], reader);
    ArrayApply(one, [t], reader);
    var sub, two := one["CURRENCIES" := Tables([x])], one["CURRENCIES" := Tables([t, t])];
    assert [t] + [t] == [t, t] && [x] + [t] == [x, t] && [t] + [x] == [t, x];
    ArrayApply(sub, [x], reader);
    PaddedApply(two, [t], reader);
    var a, b := sub["CURRENCIES" := Tables([x, t])], two["CURRENCIES" := Tables([t, x])];
    EvaluateFour(ROOT, ARRAY_BLOCK, PADDED_BLOCK, ARRAY_BLOCK, e, one, sub, a, reader);
    EvaluateFour(ROOT, ARRAY_BLOCK, ARRAY_BLOCK, PADDED_BLOCK, e, one, two, b, reader);
    assert a["CURRENCIES"].items[0] == x && b["CURRENCIES"].items[0] == t;
    assert "extra" in x.fields && "extra" !in t.fields;
  }

  /** Its headers are the ones that do not agree: one top-level key, two ranks. */
  lemma PaddedHeadsDisagree()
    ensures !HeadsAgree([ROOT, ARRAY_BLOCK, PADDED_BLOCK, ARRAY_BLOCK])
  {
    hide SectionRank, HeadingOf;
    WitnessRanks();
    ArrayHeading();
    PaddedHeading();
    var blocks := [ROOT, ARRAY_BLOCK, PADDED_BLOCK, ARRAY_BLOCK];
    assert blocks[1] in blocks && blocks[2] in blocks && SameHead(blocks[1], blocks[2]);
  }

  /** What the reader makes of `code = "A"`, for any text in the place of `A`. */
  function CodeTokens(code: string): seq<seq<Token>> {
    [[Mark('=', false), Text(code, true)]]
  }

  lemma CodeApply<V>(fields: Fields<V>, items: seq<Tree<V>>, b: Block, code: string, reader: Reader<V>)
    requires Get(fields, "CURRENCIES") == (if items == [] then None else Some(Tables(items)))
    requires b.header.Some? && HeadingOf(b.header.value.line) == Under(HeaderLine(true, ["CURRENCIES"]))
    requires b.kvs == [CodeKv(code)] && code in {"A", "B"} && reader.valid(CodeTokens(code))
    ensures ApplyBlock(fields, b, reader)
         == Some(fields["CURRENCIES" := Tables(items + [Table(map["code" := Leaf(reader.value(CodeTokens(code)))], Declared)])])
  {
    hide HeadingOf, ApplyBlock, ReadStatement, TextLine, Fill;
    TextStatement("code", code);
    var entry := Entry(["code"], reader.value(CodeTokens(code)));
    assert KvEntries(b.kvs, reader) == [entry];
    FillOne(entry);
    ItemApply(fields, items, b, map["code" := Leaf(entry.value)], reader);
  }

  lemma FillOne<V>(e: Entry<V>)
    requires |e.path| == 1
    ensures var empty: Fields<V> := map[]; Fill(empty, [e]) == Some(map[e.path[0] := Leaf(e.value)])
  {
    var empty: Fields<V> := map[];
    LeafAssign(empty, e.path, e.value);
    assert empty[e.path[0] := Leaf(e.value)] == map[e.path[0] := Leaf(e.value)];
    assert [e][1..] == [];
  }

  /**
   A comment behind a header changes the rank of its section: two items of one array
   change places, and the document is another one.
   */
  lemma CommentedHeadChangesMeaning<V>(reader: Reader<V>)
    requires reader.valid(CodeTokens("A")) && reader.valid(CodeTokens("B"))
    requires reader.value(CodeTokens("A")) != reader.value(CodeTokens("B"))
    ensures HeaderName("[[CURRENCIES]] # first") == COMMENTED_BLOCK.name
    ensures NormaliseHeader("[[CURRENCIES]] # first") == COMMENTED_BLOCK.header.value.line
    ensures var blocks := [ROOT, COMMENTED_BLOCK, UNCOMMENTED_BLOCK];
      && !HeadsAgree(blocks)
      && Evaluate(map[], blocks, reader).Some?
      && Evaluate(map[], OrderBlocks(blocks), reader).Some?
      && Evaluate(map[], OrderBlocks(blocks), reader) != Evaluate(map[], blocks, reader)
  {
    hide Evaluate, OrderBlocks, HeadsAgree, HeaderName, NormaliseHeader, CodeKv, CodeTokens;
    CommentedName();
    CommentedOrder();
    CommentedHeadsDisagree();
    CommentedEvaluate(COMMENTED_BLOCK, "A", UNCOMMENTED_BLOCK, "B", reader);
    CommentedEvaluate(UNCOMMENTED_BLOCK, "B", COMMENTED_BLOCK, "A", reader);
    ItemsDiffer(reader.value(CodeTokens("A")), reader.value(CodeTokens("B")));
  }

  function Item<V>(v: V): Tree<V> {
    Table(map["code" := Leaf(v)], Declared)
  }

  lemma ItemsDiffer<V>(v: V, w: V)
    requires v != w
    ensures map["CURRENCIES" := Tables([Item(v), Item(w)])] != map["CURRENCIES" := Tables([Item(w), Item(v)])]
  {
    var a, b := Item(v), Item(w);
    assert a.fields["code"] == Leaf(v) && b.fields["code"] == Leaf(w);
    assert [a, b][0] == a && [b, a][0] == b;
    var s, t := map["CURRENCIES" := Tables([a, b])], map["CURRENCIES" := Tables([b, a])];
    assert s["CURRENCIES"].items == [a, b] && t["CURRENCIES"].items == [b, a];
  }

  lemma CommentedHeadsDisagree()
    ensures !HeadsAgree([ROOT, COMMENTED_BLOCK, UNCOMMENTED_BLOCK])
  {
    hide SectionRank, HeadingOf, CodeKv;
    WitnessRanks();
    ArrayHeading();
    CommentedHeading();
    var blocks := [ROOT, COMMENTED_BLOCK, UNCOMMENTED_BLOCK];
    assert blocks[1] in blocks && blocks[2] in blocks && SameHead(blocks[1], blocks[2]);
  }

  lemma CommentedEvaluate<V>(x: Block, a: string, y: Block, b: string, reader: Reader<V>)
    requires {x, y} == {COMMENTED_BLOCK, UNCOMMENTED_BLOCK} && x.kvs == [CodeKv(a)] && y.kvs == [CodeKv(b)]
    requires a in {"A", "B"} && b in {"A", "B"} && reader.valid(CodeTokens(a)) && reader.valid(CodeTokens(b))
    ensures Evaluate(map[], [ROOT, x, y], reader)
         == Some(map["CURRENCIES" := Tables([Item(reader.value(CodeTokens(a))), Item(reader.value(CodeTokens(b)))])])
  {
    hide ApplyBlock, HeadingOf, CodeKv, CodeTokens, Evaluate;
    ArrayHeading();
    CommentedHeading();
    var none: Fields<V> := map[];
    var v, w: Tree<V> := Item(reader.value(CodeTokens(a))), Item(reader.value(CodeTokens(b)));
    RootApply(reader);
    CodeApply(none, [], x, a, reader);
    assert [] + [v] == [v] && [v] + [w] == [v, w];
    var one := none["CURRENCIES" := Tables([v])];
    CodeApply(one, [v], y, b, reader);
    assert one["CURRENCIES" := Tables([v, w])] == map["CURRENCIES" := Tables([v, w])];
    assert [ROOT, x, y] == [ROOT] + [x, y];
    EvaluateConcat(none, [ROOT], [x, y], reader);
    EvaluateOne(none, ROOT, reader);
    EvaluateTwo(none, x, y, reader);
  }

  lemma EvaluateOne<V>(fields: Fields<V>, b: Block, reader: Reader<V>)
    ensures Evaluate(fields, [b], reader) == ApplyBlock(fields, b, reader)
  {
    hide ApplyBlock;
    assert [b][1..] == [];
    var f := ApplyBlock(fields, b, reader);
    if f.Some? {
      assert Evaluate(f.value, [], reader) == f;
    }
  }

  lemma RootApply<V>(reader: Reader<V>)
    ensures ApplyBlock(map[], ROOT, reader) == Some(map[])
  {
  }
}
