/**
 The guard of `formatToml` in `src/format-file.ts`: structural equality of two parsed
 documents. It decides equality of the data, except that NaN is never equal to itself.
 */
module DeepEqual {
  import opened JsText
  import opened Wrappers
  import FormatDoc

  /** A number as `===` sees it: both zeros are `Real(0.0)`. */
  datatype Number = NotANumber | Infinity(negative: bool) | Real(value: real)

  /** What the parser returns. A date is known by its instant, which an invalid one has none of. */
  datatype Value =
    | Null
    | Text(text: string)
    | Flag(flag: bool)
    | Num(number: Number)
    | Big(n: int)
    | Instant(time: Option<int>)
    | List(items: seq<Value>)
    | Record(entries: seq<Property>)

  /** Properties in the order they were set. */
  datatype Property = Property(key: string, value: Value)

  /** No property name occurs twice. */
  ghost predicate WellFormed(v: Value) {
    match v
    case List(items) => forall x | x in items :: WellFormed(x)
    case Record(entries) =>
      && (forall i, j | 0 <= i < j < |entries| :: entries[i].key != entries[j].key)
      && forall e | e in entries :: WellFormed(e.value)
    case _ => true
  }

  /** `===` on two numbers. */
  predicate SameNumber(a: Number, b: Number) {
    a == b && a != NotANumber
  }

  function IndexOfKey(entries: seq<Property>, key: string): (i: nat)
    ensures i <= |entries| && (i < |entries| ==> entries[i].key == key)
  {
    if entries == [] || entries[0].key == key then 0 else 1 + IndexOfKey(entries[1..], key)
  }

  /** `deepEqual`, on two values of which no part is the same object. */
  predicate DeepEqual(a: Value, b: Value)
    decreases a
  {
    match (a, b)
    case (Null, Null) => true
    case (Text(x), Text(y)) => x == y
    case (Flag(x), Flag(y)) => x == y
    case (Num(x), Num(y)) => SameNumber(x, y)
    case (Big(x), Big(y)) => x == y
    case (Instant(x), Instant(y)) => x == y
    case (List(x), List(y)) => |x| == |y| && EveryItem(x, y)
    case (Record(x), Record(y)) => |x| == |y| && EveryKey(x, y)
    case _ => false
  }

  predicate EveryItem(x: seq<Value>, y: seq<Value>)
    requires |x| == |y|
    decreases x
  {
    x == [] || (DeepEqual(x[0], y[0]) && EveryItem(x[1..], y[1..]))
  }

  predicate EveryKey(x: seq<Property>, y: seq<Property>)
    decreases x
  {
    x == [] ||
    (var i := IndexOfKey(y, x[0].key);
     i < |y| && DeepEqual(x[0].value, y[i].value) && EveryKey(x[1..], y))
  }

  // ----- What it decides -----

  /** Data without any order on keys. */
  datatype Data =
    | DNull
    | DText(text: string)
    | DFlag(flag: bool)
    | DNum(number: Number)
    | DBig(n: int)
    | DInstant(time: Option<int>)
    | DList(items: seq<Data>)
    | DRecord(fields: map<string, Data>)

  function DataOf(v: Value): Data {
    match v
    case Null => DNull
    case Text(x) => DText(x)
    case Flag(x) => DFlag(x)
    case Num(x) => DNum(x)
    case Big(x) => DBig(x)
    case Instant(x) => DInstant(x)
    case List(items) => DList(seq(|items|, i requires 0 <= i < |items| => DataOf(items[i])))
    case Record(entries) => DRecord(Fields(entries))
  }

  function Fields(entries: seq<Property>): map<string, Data> {
    if entries == [] then map[] else Fields(entries[1..])[entries[0].key := DataOf(entries[0].value)]
  }

  /** Some number in the value is NaN. */
  ghost predicate HasNaN(v: Value) {
    match v
    case Num(x) => x == NotANumber
    case List(items) => exists x | x in items :: HasNaN(x)
    case Record(entries) => exists e | e in entries :: HasNaN(e.value)
    case _ => false
  }

  lemma {:induction false} FieldsAre(entries: seq<Property>, i: nat)
    requires forall j, k | 0 <= j < k < |entries| :: entries[j].key != entries[k].key
    ensures forall k :: k in Fields(entries) <==> exists j | 0 <= j < |entries| :: entries[j].key == k
    ensures i < |entries| ==>
      entries[i].key in Fields(entries) && Fields(entries)[entries[i].key] == DataOf(entries[i].value)
  {
    hide DataOf;
    if entries != [] {
      var rest := entries[1..];
      FieldsAre(rest, if i == 0 then 0 else i - 1);
      assert forall j | 0 < j < |entries| :: entries[j] == rest[j - 1];
      forall k ensures k in Fields(entries) <==> exists j | 0 <= j < |entries| :: entries[j].key == k {
        if k in Fields(rest) {
          var j :| 0 <= j < |rest| && rest[j].key == k;
          assert entries[j + 1].key == k;
        }
      }
    }
  }

  lemma {:induction false} IndexFinds(entries: seq<Property>, key: string)
    ensures IndexOfKey(entries, key) < |entries| <==> exists j | 0 <= j < |entries| :: entries[j].key == key
  {
    if entries != [] && entries[0].key != key {
      IndexFinds(entries[1..], key);
      assert forall j | 0 < j < |entries| :: entries[j] == entries[1..][j - 1];
    }
  }

  // ----- Proof -----

  lemma {:induction false} ItemsEqual(x: seq<Value>, y: seq<Value>)
    requires |x| == |y| && forall v | v in x + y :: WellFormed(v)
    ensures EveryItem(x, y) <==> forall i | 0 <= i < |x| :: DataOf(x[i]) == DataOf(y[i]) && !HasNaN(x[i])
    decreases x
  {
    hide DataOf, HasNaN, WellFormed, DeepEqual;
    if x != [] {
      assert x[0] in x + y && y[0] in x + y;
      forall v | v in x[1..] + y[1..] ensures v in x + y {
      }
      Decides(x[0], y[0]);
      ItemsEqual(x[1..], y[1..]);
      assert forall i | 0 < i < |x| :: x[i] == x[1..][i - 1] && y[i] == y[1..][i - 1];
    }
  }

  lemma {:induction false} KeysEqual(x: seq<Property>, y: seq<Property>)
    requires forall e | e in x + y :: WellFormed(e.value)
    requires forall j, k | 0 <= j < k < |y| :: y[j].key != y[k].key
    ensures EveryKey(x, y) <==>
      forall i | 0 <= i < |x| ::
        x[i].key in Fields(y) && Fields(y)[x[i].key] == DataOf(x[i].value) && !HasNaN(x[i].value)
    decreases x, 0
  {
    hide DataOf, HasNaN, WellFormed, DeepEqual, Fields;
    if x != [] {
      var k := IndexOfKey(y, x[0].key);
      assert x[0] in x + y;
      forall e | e in x[1..] + y ensures e in x + y {
      }
      IndexFinds(y, x[0].key);
      FieldsAre(y, k);
      if k < |y| {
        assert y[k] in x + y;
        Decides(x[0].value, y[k].value);
      }
      KeysEqual(x[1..], y);
      assert forall i | 0 < i < |x| :: x[i] == x[1..][i - 1];
    }
  }

  /** Two maps with as many keys, all of one among those of the other, have the same keys. */
  lemma {:induction false} FieldCount(entries: seq<Property>)
    requires forall j, k | 0 <= j < k < |entries| :: entries[j].key != entries[k].key
    ensures |Fields(entries)| == |entries|
  {
    hide DataOf;
    if entries != [] {
      var rest := entries[1..];
      FieldCount(rest);
      FieldsAre(rest, 0);
      assert entries[0].key !in Fields(rest);
    }
  }

  lemma SameKeys<K, V>(a: map<K, V>, b: map<K, V>)
    requires |a| == |b| && forall k | k in a :: k in b
    ensures forall k | k in b :: k in a
  {
    assert a.Keys <= b.Keys && |a.Keys| == |b.Keys|;
    assert |b.Keys - a.Keys| == |b.Keys| - |a.Keys|;
    assert b.Keys - a.Keys == {};
    forall k | k in b ensures k in a {
      assert k !in b.Keys - a.Keys;
    }
  }

  lemma RecordsEqual(x: seq<Property>, y: seq<Property>)
    requires WellFormed(Record(x)) && WellFormed(Record(y))
    ensures |x| == |y| && EveryKey(x, y) <==> Fields(x) == Fields(y) && !HasNaN(Record(x))
    decreases x, 1
  {
    hide DataOf, EveryKey, Fields;
    KeysEqual(x, y);
    FieldCount(x);
    FieldCount(y);
    forall i | 0 <= i < |x| ensures x[i].key in Fields(x) && Fields(x)[x[i].key] == DataOf(x[i].value) {
      FieldsAre(x, i);
    }
    FieldsAre(x, |x|);
    FieldsAre(y, |y|);
    if |x| == |y| && EveryKey(x, y) {
      SameKeys(Fields(x), Fields(y));
    }
  }

  /** The comparison decides equality of the data, and refuses NaN. */
  lemma {:induction false} Decides(a: Value, b: Value)
    requires WellFormed(a) && WellFormed(b)
    ensures DeepEqual(a, b) <==> DataOf(a) == DataOf(b) && !HasNaN(a)
    decreases a
  {
    match (a, b) {
      case (List(x), List(y)) =>
        if |x| == |y| {
          ItemsEqual(x, y);
          ListsEqual(x, y);
        }
      case (Record(x), Record(y)) => RecordsEqual(x, y);
      case _ =>
    }
  }

  lemma ListsEqual(x: seq<Value>, y: seq<Value>)
    requires |x| == |y|
    ensures DataOf(List(x)) == DataOf(List(y)) <==> forall i | 0 <= i < |x| :: DataOf(x[i]) == DataOf(y[i])
  {
    var s := seq(|x|, i requires 0 <= i < |x| => DataOf(x[i]));
    var t := seq(|y|, i requires 0 <= i < |y| => DataOf(y[i]));
    assert DataOf(List(x)) == DList(s) && DataOf(List(y)) == DList(t);
    assert forall i | 0 <= i < |x| :: s[i] == DataOf(x[i]) && t[i] == DataOf(y[i]);
  }

  // ----- What that means for the formatter -----

  /** A value is equal to itself exactly when it holds no NaN. */
  lemma EqualToItself(v: Value)
    requires WellFormed(v)
    ensures DeepEqual(v, v) <==> !HasNaN(v)
  {
    hide DeepEqual, DataOf, HasNaN;
    Decides(v, v);
  }

  /**
   Whatever the parser: output that the formatter changed parses to the data of its input.
   Neither parse sees the byte order mark that both texts may carry.
   */
  lemma ChangedOutputMeansTheSame(parse: string -> Option<Value>, source: string)
    requires forall s :: parse(s).Some? ==> WellFormed(parse(s).value)
    requires var r := FormatDoc.FormatToml(parse, DeepEqual, source); r.Ok? && r.value.changed
    ensures var output := FormatDoc.FormatToml(parse, DeepEqual, source).value.output;
      var n := |source| - |FormatDoc.Body(source)|;
      && n <= |output| && output[..n] == source[..n]
      && parse(FormatDoc.Body(source)).Some? && parse(output[n..]).Some?
      && DataOf(parse(output[n..]).value) == DataOf(parse(FormatDoc.Body(source)).value)
      && !HasNaN(parse(FormatDoc.Body(source)).value)
  {
    hide DeepEqual, DataOf, HasNaN, WellFormed;
    var output := FormatDoc.FormatToml(parse, DeepEqual, source).value.output;
    var n := |source| - |FormatDoc.Body(source)|;
    assert output[0..] == output;
    Decides(parse(FormatDoc.Body(source)).value, parse(output[n..]).value);
  }

  /** A document that holds NaN is never reformatted, although its data would be kept. */
  lemma NaNBlocksFormatting(parse: string -> Option<Value>, source: string)
    requires forall s :: parse(s).Some? ==> WellFormed(parse(s).value)
    requires parse(FormatDoc.Body(source)).Some? && HasNaN(parse(FormatDoc.Body(source)).value)
    ensures var r := FormatDoc.FormatToml(parse, DeepEqual, source); r.Ok? ==> !r.value.changed
  {
    hide DeepEqual, DataOf, HasNaN, WellFormed;
    var r := FormatDoc.FormatToml(parse, DeepEqual, source);
    if r.Ok? && r.value.changed {
      var hasBom := source != "" && source[0] == FormatDoc.BOM;
      Decides(parse(FormatDoc.Body(source)).value, parse(if hasBom then r.value.output[1..] else r.value.output).value);
    }
  }
}
