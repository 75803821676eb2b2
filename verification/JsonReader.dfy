/**
 A reader of JSON without white space, after RFC 8259, and the proof that it reads canonical
 texts as the data they show, with the members of every object in the order of code points.
 */
module JsonReader {
  import opened JsText
  import opened Wrappers
  import opened CodePoints
  import opened SemanticHash
  import opened CanonicalReading

  datatype Json =
    | JNull
    | JText(text: string)
    | JFlag(flag: bool)
    | JNumber(text: string)
    | JList(items: seq<Json>)
    | JObject(members: seq<Member>)

  /** Members in the order in which they stand in the text. */
  datatype Member = Member(key: string, value: Json)

  // ----- The reader -----

  function HexValue(c: char): Option<nat> {
    if '0' <= c <= '9' then Some(c as int - '0' as int)
    else if 'a' <= c <= 'f' then Some(c as int - 'a' as int + 10)
    else if 'A' <= c <= 'F' then Some(c as int - 'A' as int + 10)
    else None
  }

  /** The character four hexadecimal digits name; half a surrogate pair names none. */
  function HexChar(s: string): Option<char> {
    if |s| < 4 then None
    else
      match (HexValue(s[0]), HexValue(s[1]), HexValue(s[2]), HexValue(s[3]))
      case (Some(a), Some(b), Some(c), Some(d)) =>
        var n := 4096 * a + 256 * b + 16 * c + d;
        if n < 0xD800 || 0xE000 <= n < 0x10000 then Some(n as char) else None
      case _ => None
  }

  /** The character an escape sequence names, and how many characters it takes behind the backslash. */
  function Escaped(s: string): Option<(char, nat)> {
    if s == "" then None
    else
      match s[0]
      case '"' => Some(('"', 1))
      case '\\' => Some(('\\', 1))
      case '/' => Some(('/', 1))
      case 'b' => Some((8 as char, 1))
      case 'f' => Some((12 as char, 1))
      case 'n' => Some((10 as char, 1))
      case 'r' => Some((13 as char, 1))
      case 't' => Some((9 as char, 1))
      case 'u' => (match HexChar(s[1..]) case None => None case Some(c) => Some((c, 5)))
      case _ => None
  }

  /** The string whose content starts `s`, and the text behind its closing quote. */
  function ReadText(s: string): (r: Option<(string, string)>)
    ensures r.Some? ==> |r.value.1| < |s|
    decreases |s|
  {
    if s == "" || s[0] < ' ' then None
    else if s[0] == '"' then Some(("", s[1..]))
    else if s[0] == '\\' then
      match Escaped(s[1..])
      case None => None
      case Some((c, n)) =>
        if |s| < n + 1 then None
        else match ReadText(s[n + 1..]) case None => None case Some((text, rest)) => Some(([c] + text, rest))
    else match ReadText(s[1..]) case None => None case Some((text, rest)) => Some(([s[0]] + text, rest))
  }

  /** How many characters of a number start `s`. */
  function NumberLength(s: string): (n: nat)
    ensures n <= |s|
  {
    if s == "" || !IsNumberChar(s[0]) then 0 else 1 + NumberLength(s[1..])
  }

  function ReadValue(s: string): (r: Option<(Json, string)>)
    ensures r.Some? ==> |r.value.1| < |s|
    decreases |s|, 0
  {
    if s == "" then None
    else if StartsWith(s, "null") then Some((JNull, s[4..]))
    else if StartsWith(s, "true") then Some((JFlag(true), s[4..]))
    else if StartsWith(s, "false") then Some((JFlag(false), s[5..]))
    else if s[0] == '"' then
      match ReadText(s[1..]) case None => None case Some((text, rest)) => Some((JText(text), rest))
    else if s[0] == '[' then
      if |s| > 1 && s[1] == ']' then Some((JList([]), s[2..]))
      else match ReadList(s[1..]) case None => None case Some((items, rest)) => Some((JList(items), rest))
    else if s[0] == '{' then
      if |s| > 1 && s[1] == '}' then Some((JObject([]), s[2..]))
      else match ReadObject(s[1..]) case None => None case Some((members, rest)) => Some((JObject(members), rest))
    else if s[0] == '-' || '0' <= s[0] <= '9' then
      Some((JNumber(s[..NumberLength(s)]), s[NumberLength(s)..]))
    else None
  }

  /** One or more items, up to the closing bracket. */
  function ReadList(s: string): (r: Option<(seq<Json>, string)>)
    ensures r.Some? ==> |r.value.1| < |s|
    decreases |s|, 1
  {
    match ReadValue(s)
    case None => None
    case Some((item, rest)) =>
      if rest == "" then None
      else if rest[0] == ']' then Some(([item], rest[1..]))
      else if rest[0] == ',' then
        match ReadList(rest[1..]) case None => None case Some((items, more)) => Some(([item] + items, more))
      else None
  }

  /** One or more members, up to the closing brace. */
  function ReadObject(s: string): (r: Option<(seq<Member>, string)>)
    ensures r.Some? ==> |r.value.1| < |s|
    decreases |s|, 1
  {
    if s == "" || s[0] != '"' then None
    else
      match ReadText(s[1..])
      case None => None
      case Some((key, behind)) =>
        if behind == "" || behind[0] != ':' then None
        else
          match ReadValue(behind[1..])
          case None => None
          case Some((value, rest)) =>
            if rest == "" then None
            else if rest[0] == '}' then Some(([Member(key, value)], rest[1..]))
            else if rest[0] == ',' then
              match ReadObject(rest[1..])
              case None => None
              case Some((members, more)) => Some(([Member(key, value)] + members, more))
            else None
  }

  // ----- What is read -----

  /** The number decimal digits denote. */
  function Decimal(digits: string): int {
    if digits == "" then 0 else 10 * Decimal(digits[..|digits| - 1]) + (digits[|digits| - 1] as int - '0' as int)
  }

  /** A number without point and exponent is an integer; a float is known by its shortest text. */
  function NumberOf(t: string): Data {
    if HasPoint(t) then
      if t == "-0.0" then DFlt(NegZero)
      else if |t| >= 2 && t[|t| - 2..] == ".0" then DFlt(Finite(t[..|t| - 2]))
      else DFlt(Finite(t))
    else if t != "" && t[0] == '-' then DInt(-Decimal(t[1..]))
    else DInt(Decimal(t))
  }

  function DataOf(j: Json): Data {
    match j
    case JNull => DNull
    case JText(text) => DStr(text)
    case JFlag(flag) => DBool(flag)
    case JNumber(t) => NumberOf(t)
    case JList(items) => DArr(seq(|items|, i requires 0 <= i < |items| => DataOf(items[i])))
    case JObject(members) => DTab(FieldsOf(members))
  }

  function FieldsOf(members: seq<Member>): map<string, Data> {
    if members == [] then map[] else FieldsOf(members[1..])[members[0].key := DataOf(members[0].value)]
  }

  /** The members of every object stand in that order. */
  ghost predicate InOrder(j: Json) {
    match j
    case JList(items) => forall x | x in items :: InOrder(x)
    case JObject(members) =>
      && (forall i, k | 0 <= i < k < |members| :: Precedes(members[i].key, members[k].key))
      && forall m | m in members :: InOrder(m.value)
    case _ => true
  }

  // ----- Strings -----

  /** What a reader does not see: escapes and integers are written as short as they can be. */
  lemma EscapeIsShort(c: char)
    ensures |EscapeChar(c)| ==
      if c in ['\U{0008}', '\t', '\n', '\U{000C}', '\r', '"', '\\'] then 2 else if c < ' ' then 6 else 1
    ensures |EscapeChar(c)| == 6 ==> forall d | d in EscapeChar(c)[2..] :: d in "0123456789abcdef"
  {
  }

  lemma {:induction false} NoLeadingZero(n: nat)
    ensures DigitsText(n)[0] == '0' <==> n == 0
  {
    if n >= 10 {
      NoLeadingZero(n / 10);
    }
  }

  lemma HexDigit(i: nat)
    requires i < 16
    ensures HexValue(HEX[i]) == Some(i)
  {
  }

  /** Reading one character in front of a text. */
  function InFront(c: char, r: Option<(string, string)>): Option<(string, string)> {
    match r case None => None case Some((text, rest)) => Some(([c] + text, rest))
  }

  /** Reading what `JSON.stringify` writes for one character. */
  lemma CharRead(c: char, x: string)
    ensures ReadText(EscapeChar(c) + x) == InFront(c, ReadText(x))
  {
    hide ReadText, Escaped;
    var e := EscapeChar(c);
    if |e| == 1 {
      PlainRead(c, x);
    } else {
      EscapeNames(c, x);
      EscapeRead(e, c, x);
    }
  }

  lemma PlainRead(c: char, x: string)
    requires c >= ' ' && c != '"' && c != '\\'
    ensures ReadText([c] + x) == InFront(c, ReadText(x))
  {
    assert ([c] + x)[1..] == x;
  }

  lemma EscapeRead(e: string, c: char, x: string)
    requires |e| >= 2 && e[0] == '\\' && Escaped(e[1..] + x) == Some((c, |e| - 1))
    ensures ReadText(e + x) == InFront(c, ReadText(x))
  {
    hide Escaped;
    var s := e + x;
    assert s[0] == '\\' && s[1..] == e[1..] + x && s[|e|..] == x;
  }

  lemma EscapeNames(c: char, x: string)
    requires |EscapeChar(c)| > 1
    ensures EscapeChar(c)[0] == '\\' && Escaped(EscapeChar(c)[1..] + x) == Some((c, |EscapeChar(c)| - 1))
  {
    hide HexChar;
    var e := EscapeChar(c);
    var s := e[1..] + x;
    assert s[0] == e[1];
    if |e| == 6 {
      assert s[1..] == "00" + [HEX[c as int / 16], HEX[c as int % 16]] + x;
      UnicodeRead(c, x, s[1..]);
    }
  }

  lemma UnicodeRead(c: char, x: string, t: string)
    requires c < ' ' && t == "00" + [HEX[c as int / 16], HEX[c as int % 16]] + x
    ensures HexChar(t) == Some(c)
  {
    HexDigit(c as int / 16);
    HexDigit(c as int % 16);
    assert t[0] == '0' && t[1] == '0' && t[2] == HEX[c as int / 16] && t[3] == HEX[c as int % 16];
  }

  lemma {:induction false} TextRead(a: string, r: string)
    ensures ReadText(Escape(a) + "\"" + r) == Some((a, r))
  {
    hide EscapeChar;
    EscapedHead(a, r);
    if a == "" {
      var p := Escape(a) + "\"" + r;
      assert p[0] == '"';
    } else {
      hide ReadText;
      TextRead(a[1..], r);
      CharRead(a[0], Escape(a[1..]) + "\"" + r);
      assert a == [a[0]] + a[1..];
    }
  }

  lemma StringRead(a: string, r: string)
    ensures var s := Stringify(a) + r; s != "" && s[0] == '"' && ReadText(s[1..]) == Some((a, r))
  {
    hide Escape, ReadText;
    StringifyTail(a, r);
    TextRead(a, r);
  }

  // ----- Numbers -----

  lemma {:induction false} DigitsRead(n: nat)
    ensures Decimal(DigitsText(n)) == n
  {
    var t := DigitsText(n);
    if n >= 10 {
      DigitsRead(n / 10);
      assert t[..|t| - 1] == DigitsText(n / 10);
    } else {
      assert t[..|t| - 1] == "";
      assert Decimal("") == 0;
    }
  }

  lemma {:induction false} RunRead(t: string, r: string)
    requires (forall c | c in t :: IsNumberChar(c)) && Delimited(r)
    ensures NumberLength(t + r) == |t|
  {
    if t == "" {
      assert t + r == r;
    } else {
      assert (t + r)[0] == t[0] && (t + r)[1..] == t[1..] + r;
      RunRead(t[1..], r);
    }
  }

  lemma IntRead(n: int)
    ensures NumberOf(IntText(n)) == DInt(n)
  {
    IntTextPlain(n);
    DigitsRead(if n < 0 then -n else n);
    var d := DigitsText(if n < 0 then -n else n);
    assert d[0] in d;
    if n < 0 { assert IntText(n)[1..] == d; }
  }

  lemma FloatRead(text: string)
    requires IsFloatText(text)
    ensures NumberOf(FiniteText(text)) == DFlt(Finite(text))
  {
    FiniteTextPointed(text);
    var t := FiniteText(text);
    if !HasPoint(text) {
      assert t[|t| - 2..] == ".0" && t[..|t| - 2] == text;
    }
  }

  lemma NegZeroRead()
    ensures NumberOf("-0.0") == DFlt(NegZero)
  {
    assert '.' in "-0.0";
  }

  lemma NumberData(v: Toml)
    requires WellFormed(v) && !IsTagged(v) && KindOf(v) == KNumber
    ensures NumberOf(Canonicalize(v)) == ShownValue(v)
  {
    hide NumberOf, FiniteText, IntText;
    match v
    case Int(n) => IntRead(n);
    case Flt(Finite(text)) => FloatRead(text);
    case Flt(_) => NegZeroRead();
    case _ =>
  }

  lemma NumberRead(v: Toml, r: string)
    requires WellFormed(v) && !IsTagged(v) && KindOf(v) == KNumber && Delimited(r)
    ensures ReadValue(Canonicalize(v) + r) == Some((JNumber(Canonicalize(v)), r))
  {
    hide Canonicalize, WellFormed;
    HeadTellsKind(v);
    var t := Canonicalize(v);
    RunRead(t, r);
    assert (t + r)[0] == t[0] && (t + r)[..|t|] == t && (t + r)[|t|..] == r;
    NoWord(t + r);
  }

  lemma FirstOfWord(s: string, word: string)
    requires s != "" && word != ""
    ensures StartsWith(s, word) ==> s[0] == word[0]
  {
    if StartsWith(s, word) { assert s[..|word|][0] == s[0]; }
  }

  lemma NoWord(s: string)
    requires s != "" && (s[0] == '-' || '0' <= s[0] <= '9' || s[0] == '"' || s[0] == '[' || s[0] == '{')
    ensures !StartsWith(s, "null") && !StartsWith(s, "true") && !StartsWith(s, "false")
  {
    hide StartsWith;
    FirstOfWord(s, "null");
    FirstOfWord(s, "true");
    FirstOfWord(s, "false");
  }

  lemma WordRead(v: Toml, r: string)
    requires v.Null? || v.Bool?
    ensures ReadValue(Canonicalize(v) + r) == Some((if v.Null? then JNull else JFlag(v.flag), r))
  {
    var t := Canonicalize(v);
    assert (t + r)[..|t|] == t && (t + r)[|t|..] == r && (t + r)[0] == t[0];
    FirstOfWord(t + r, "null");
    FirstOfWord(t + r, "true");
  }

  // ----- Values -----

  /** The reader gives `j`, which shows the data of `v` with its members in order. */
  ghost predicate Shows(j: Json, v: Toml) {
    DataOf(j) == ShownValue(v) && InOrder(j)
  }

  lemma {:induction false} ValueRead(v: Toml, r: string) returns (j: Json)
    requires WellFormed(v) && Delimited(r)
    ensures ReadValue(Canonicalize(v) + r) == Some((j, r)) && Shows(j, v)
    decreases Size(v), 3
  {
    hide Canonicalize, WellFormed, Delimited, AsTable, Meaning, Shown, ReadValue, DataOf, InOrder;
    if IsTagged(v) {
      TaggedAsTable(v);
      j := ValueRead(AsTable(v), r);
    } else {
      j := UntaggedRead(v, r);
    }
  }

  lemma {:induction false} UntaggedRead(v: Toml, r: string) returns (j: Json)
    requires WellFormed(v) && Delimited(r) && !IsTagged(v)
    ensures ReadValue(Canonicalize(v) + r) == Some((j, r)) && Shows(j, v)
    decreases Size(v), 2
  {
    hide Canonicalize, WellFormed, Delimited, Meaning, Shown, ReadValue, DataOf, InOrder;
    match v {
      case Null =>
        WordRead(v, r);
        j := JNull;
        PlainShows(v, j);
      case Bool(flag) =>
        WordRead(v, r);
        j := JFlag(flag);
        PlainShows(v, j);
      case Str(text) =>
        QuotedRead(v, r);
        j := JText(text);
        PlainShows(v, j);
      case Arr(items) =>
        ArrayWellFormed(items);
        j := ArrayRead(items, r);
      case Tab(entries) =>
        j := TableRead(entries, r);
      case Int(_) =>
        NumberRead(v, r);
        j := JNumber(Canonicalize(v));
        NumberShows(v, j);
      case Flt(_) =>
        NumberRead(v, r);
        j := JNumber(Canonicalize(v));
        NumberShows(v, j);
      case Date(_) =>
        DatesAreTagged(v);
        assert false;
        j := JNull;
    }
  }

  lemma PlainShows(v: Toml, j: Json)
    requires match v case Null => j == JNull case Bool(flag) => j == JFlag(flag) case Str(text) => j == JText(text) case _ => false
    ensures Shows(j, v)
  {
  }

  lemma NumberShows(v: Toml, j: Json)
    requires WellFormed(v) && !IsTagged(v) && KindOf(v) == KNumber && j == JNumber(Canonicalize(v))
    ensures Shows(j, v)
  {
    hide Canonicalize, ShownValue, WellFormed, NumberOf;
    NumberData(v);
  }

  lemma QuotedRead(v: Toml, r: string)
    requires v.Str?
    ensures ReadValue(Canonicalize(v) + r) == Some((JText(v.text), r))
  {
    hide Stringify, ReadText;
    StringRead(v.text, r);
    NoWord(Stringify(v.text) + r);
  }

  /** An opening bracket and what follows it. */
  lemma BracketRead(s: string)
    requires s != "" && s[0] == '['
    ensures ReadValue(s) ==
      if |s| > 1 && s[1] == ']' then Some((JList([]), s[2..]))
      else match ReadList(s[1..]) case None => None case Some((items, rest)) => Some((JList(items), rest))
  {
    hide ReadList, ReadObject, ReadText, StartsWith;
    NoWord(s);
  }

  lemma BraceRead(s: string)
    requires s != "" && s[0] == '{'
    ensures ReadValue(s) ==
      if |s| > 1 && s[1] == '}' then Some((JObject([]), s[2..]))
      else match ReadObject(s[1..]) case None => None case Some((members, rest)) => Some((JObject(members), rest))
  {
    hide ReadList, ReadObject, ReadText, StartsWith;
    NoWord(s);
  }

  ghost predicate ShowAll(js: seq<Json>, vs: seq<Toml>) {
    |js| == |vs| && forall i | 0 <= i < |js| :: Shows(js[i], vs[i])
  }

  lemma {:induction false} ArrayRead(items: seq<Toml>, r: string) returns (j: Json)
    requires ItemsWellFormed(items)
    ensures ReadValue(Canonicalize(Arr(items)) + r) == Some((j, r)) && Shows(j, Arr(items))
    decreases 1 + ItemsSize(items), 1
  {
    hide Canonicalize, Meaning, Shown, ReadValue, ReadList, DataOf, InOrder, ShownValue, Shows, After, Join, CanonicalItems;
    var s := Canonicalize(Arr(items)) + r;
    ArrayParts(items, r);
    ArrayHead(items, r);
    BracketRead(s);
    ItemsHead(items, r);
    var js: seq<Json> := [];
    if items != [] {
      js := ItemsRead(items, r);
    }
    TailAt(s);
    j := JList(js);
    ListShows(js, items);
  }

  lemma TailAt(s: string)
    requires s != ""
    ensures |s| > 1 ==> s[1] == s[1..][0] && s[2..] == s[1..][1..]
  {
  }

  lemma ArrayHead(items: seq<Toml>, r: string)
    ensures var s := Canonicalize(Arr(items)) + r; s != "" && s[0] == '['
  {
    hide Join, CanonicalItems;
  }

  lemma {:induction false} ItemsRead(items: seq<Toml>, r: string) returns (js: seq<Json>)
    requires ItemsWellFormed(items) && items != []
    ensures ReadList(Join(CanonicalItems(items), ',') + [']'] + r) == Some((js, r)) && ShowAll(js, items)
    decreases ItemsSize(items), 4
  {
    hide Canonicalize, Join, After, Meaning, Shown, ShownValue, WellFormed, Delimited, ReadValue, Shows, CanonicalItems;
    ItemsHead(items, r);
    var more := CanonicalItems(items[1..]);
    AfterDelimited(more, ']', r);
    FirstWellFormed(items);
    var j := ValueRead(items[0], After(more, ']', r));
    AfterHead(more, ']', r);
    ItemsEmpty(items[1..]);
    js := [j];
    if items[1..] != [] {
      var rest := ItemsRead(items[1..], r);
      js := [j] + rest;
    } else {
      assert items == [items[0]];
    }
    assert items == [items[0]] + items[1..];
  }

  lemma FirstWellFormed(items: seq<Toml>)
    requires items != [] && ItemsWellFormed(items)
    ensures WellFormed(items[0]) && ItemsWellFormed(items[1..])
  {
  }

  lemma ListShows(js: seq<Json>, items: seq<Toml>)
    requires ShowAll(js, items)
    ensures Shows(JList(js), Arr(items))
  {
    hide Meaning, Shown;
    forall x | x in js ensures InOrder(x) {
      var i :| 0 <= i < |js| && js[i] == x;
      assert Shows(js[i], items[i]);
    }
    ListData(js, items);
  }

  lemma ListData(js: seq<Json>, items: seq<Toml>)
    requires ShowAll(js, items)
    ensures DataOf(JList(js)) == ShownValue(Arr(items))
  {
    var a := MeaningItems(items);
    forall i | 0 <= i < |js| ensures DataOf(js[i]) == Shown(a[i]) {
      MeaningAt(items, i);
      assert Shows(js[i], items[i]);
    }
    var c, d := DataOf(JList(js)), Shown(DArr(a));
    assert c.items == d.items;
  }

  // ----- Tables -----

  /** The members are those of the table, for these keys. */
  ghost predicate ShowMembers(ms: seq<Member>, entries: seq<Entry>, keys: seq<string>) {
    && KeysIn(keys, entries) && |ms| == |keys|
    && forall i | 0 <= i < |ms| :: ms[i].key == keys[i] && Shows(ms[i].value, Lookup(entries, keys[i]))
  }

  lemma {:induction false} TableRead(entries: seq<Entry>, r: string) returns (j: Json)
    requires WellFormed(Tab(entries))
    ensures ReadValue(Canonicalize(Tab(entries)) + r) == Some((j, r)) && Shows(j, Tab(entries))
    decreases 1 + EntriesSize(entries), 1
  {
    hide Canonicalize, Meaning, Shown, ReadValue, ReadObject, DataOf, InOrder, ShownValue, Shows, After, Join,
      CanonicalMembers, SortKeys, Lookup, ShowMembers;
    var s, keys := Canonicalize(Tab(entries)) + r, SortKeys(Keys(entries));
    TableParts(entries, r);
    TableHead(entries, r);
    BraceRead(s);
    SortedKeysIn(entries);
    MembersHead(entries, keys, r);
    var ms: seq<Member> := [];
    if keys != [] {
      ms := MembersRead(entries, keys, r);
    } else {
      NoMembers(entries);
    }
    TailAt(s);
    j := JObject(ms);
    TableShows(ms, entries, keys);
  }

  lemma NoMembers(entries: seq<Entry>)
    ensures ShowMembers([], entries, [])
  {
  }

  lemma TableHead(entries: seq<Entry>, r: string)
    ensures var s := Canonicalize(Tab(entries)) + r; s != "" && s[0] == '{'
  {
    hide Join, CanonicalMembers, SortKeys;
  }

  lemma {:induction false} MembersRead(entries: seq<Entry>, keys: seq<string>, r: string) returns (ms: seq<Member>)
    requires EntriesWellFormed(entries) && KeysIn(keys, entries) && keys != []
    ensures ReadObject(Join(CanonicalMembers(entries, keys), ',') + ['}'] + r) == Some((ms, r))
    ensures ShowMembers(ms, entries, keys)
    decreases EntriesSize(entries), 4, |keys|
  {
    hide Canonicalize, Join, After, Meaning, Shown, ShownValue, WellFormed, Delimited, Stringify, CanonicalMembers, Lookup,
      ReadValue, ReadText, Shows;
    MembersHead(entries, keys, r);
    var tail := MemberTail(entries, keys, r);
    var s := Join(CanonicalMembers(entries, keys), ',') + ['}'] + r;
    StringRead(keys[0], ":" + tail);
    assert (":" + tail)[0] == ':' && (":" + tail)[1..] == tail;
    LookupWellFormed(entries, keys[0]);
    var more := CanonicalMembers(entries, keys[1..]);
    AfterDelimited(more, '}', r);
    var j := ValueRead(Lookup(entries, keys[0]), After(more, '}', r));
    AfterHead(more, '}', r);
    MembersEmpty(entries, keys[1..]);
    var first := Member(keys[0], j);
    ms := [first];
    if keys[1..] != [] {
      var rest := MembersRead(entries, keys[1..], r);
      ms := [first] + rest;
    }
  }

  lemma TableShows(ms: seq<Member>, entries: seq<Entry>, keys: seq<string>)
    requires ShowMembers(ms, entries, keys) && Ascending(keys)
    requires forall k | k in Keys(entries) :: k in keys
    ensures Shows(JObject(ms), Tab(entries))
  {
    hide Meaning, Shown, Lookup, ShownValue, Precedes, DataOf;
    forall i, k | 0 <= i < k < |ms| ensures Precedes(ms[i].key, ms[k].key) {
      BeforeMeans(keys[i], keys[k]);
    }
    forall m | m in ms ensures InOrder(m.value) {
      var i :| 0 <= i < |ms| && ms[i] == m;
      assert Shows(ms[i].value, Lookup(entries, keys[i]));
    }
    TableData(ms, entries, keys);
  }

  lemma TableData(ms: seq<Member>, entries: seq<Entry>, keys: seq<string>)
    requires ShowMembers(ms, entries, keys) && Ascending(keys)
    requires forall k | k in Keys(entries) :: k in keys
    ensures DataOf(JObject(ms)) == ShownValue(Tab(entries))
  {
    hide *;
    ShownFields(entries);
    AscendingDistinct(keys);
    FieldsShown(ms, entries, keys);
    ObjectData(ms);
    SameMap(FieldsOf(ms), ShownValue(Tab(entries)).fields);
  }

  lemma ObjectData(ms: seq<Member>)
    ensures DataOf(JObject(ms)) == DTab(FieldsOf(ms))
  {
  }

  lemma AscendingDistinct(keys: seq<string>)
    requires Ascending(keys)
    ensures Distinct(keys)
  {
    forall i, j | 0 <= i < j < |keys| ensures keys[i] != keys[j] {
      BeforeTotal(keys[i], keys[j]);
    }
  }

  lemma {:induction false} FieldsShown(ms: seq<Member>, entries: seq<Entry>, keys: seq<string>)
    requires ShowMembers(ms, entries, keys) && Distinct(keys)
    ensures forall k :: k in FieldsOf(ms) <==> k in keys
    ensures forall k | k in keys :: k in Keys(entries) && FieldsOf(ms)[k] == ShownValue(Lookup(entries, k))
  {
    hide Lookup, ShownValue, DataOf, InOrder;
    if ms != [] {
      FieldsShown(ms[1..], entries, keys[1..]);
      assert keys == [keys[0]] + keys[1..];
      assert Shows(ms[0].value, Lookup(entries, keys[0]));
    }
  }

  // ----- Main result -----

  /**
   A JSON reader reads the canonical text of a document to its end, as the data it shows, and
   finds the members of every table in the order of code points.
   */
  lemma CanonicalIsRead(v: Toml)
    requires WellFormed(v)
    ensures var r := ReadValue(Canonicalize(v));
      r.Some? && r.value.1 == "" && DataOf(r.value.0) == ShownValue(v) && InOrder(r.value.0)
  {
    hide Canonicalize, WellFormed, Meaning, Shown, ReadValue, DataOf, InOrder, ShownValue;
    var j := ValueRead(v, "");
    assert Canonicalize(v) + "" == Canonicalize(v);
  }
}
