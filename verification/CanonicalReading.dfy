/**
 Unique reading of canonical JSON: two values with the same canonical text show
 the same data, whatever text follows them.
 */
module CanonicalReading {
  import opened JsText
  import opened CodePoints
  import opened SemanticHash

  // ----- Well-formed values -----

  predicate IsNumberChar(c: char) {
    '0' <= c <= '9' || c == '+' || c == '-' || c == '.' || c == 'e' || c == 'E'
  }

  /** What `String` writes for a finite float other than -0: never a superfluous `.0`. */
  predicate IsFloatText(text: string) {
    && text != "" && (text[0] == '-' || '0' <= text[0] <= '9')
    && (forall c | c in text :: IsNumberChar(c))
    && text != "-0"
    && !(|text| >= 2 && text[|text| - 2..] == ".0")
  }

  /** Float texts are printer output, and a record holds each key once. */
  ghost predicate WellFormed(v: Toml)
    decreases Size(v), 0
  {
    match v
    case Flt(Finite(text)) => IsFloatText(text)
    case Arr(items) => ItemsWellFormed(items)
    case Tab(entries) => Distinct(Keys(entries)) && EntriesWellFormed(entries)
    case _ => true
  }

  ghost predicate ItemsWellFormed(items: seq<Toml>)
    decreases ItemsSize(items), 1
  {
    items == [] || (WellFormed(items[0]) && ItemsWellFormed(items[1..]))
  }

  ghost predicate EntriesWellFormed(entries: seq<Entry>)
    decreases EntriesSize(entries), 1
  {
    entries == [] || (WellFormed(entries[0].value) && EntriesWellFormed(entries[1..]))
  }

  lemma {:induction false} LookupWellFormed(entries: seq<Entry>, key: string)
    requires EntriesWellFormed(entries) && key in Keys(entries)
    ensures WellFormed(Lookup(entries, key))
  {
    if entries[0].key != key {
      assert Keys(entries)[1..] == Keys(entries[1..]);
      LookupWellFormed(entries[1..], key);
    }
  }

  // ----- Strings -----

  lemma CharUnique(c: char, d: char, x: string, y: string)
    requires EscapeChar(c) + x == EscapeChar(d) + y
    ensures c == d && x == y
  {
    var p, q := EscapeChar(c) + x, EscapeChar(d) + y;
    assert p[0] == EscapeChar(c)[0] && q[0] == EscapeChar(d)[0];
    assert c == d by {
      if |EscapeChar(c)| >= 2 && |EscapeChar(d)| >= 2 {
        assert p[1] == EscapeChar(c)[1] && q[1] == EscapeChar(d)[1];
        if |EscapeChar(c)| == 6 && |EscapeChar(d)| == 6 {
          assert p[4] == EscapeChar(c)[4] && q[4] == EscapeChar(d)[4];
          assert p[5] == EscapeChar(c)[5] && q[5] == EscapeChar(d)[5];
          HexUnique(c as int / 16, d as int / 16);
          HexUnique(c as int % 16, d as int % 16);
        }
      }
    }
    assert x == p[|EscapeChar(c)|..] && y == q[|EscapeChar(d)|..];
  }

  lemma HexUnique(i: nat, j: nat)
    requires i < 16 && j < 16 && HEX[i] == HEX[j]
    ensures i == j
  {
  }

  lemma {:induction false} EscapeUnique(a: string, b: string, r: string, s: string)
    requires Escape(a) + "\"" + r == Escape(b) + "\"" + s
    ensures a == b && r == s
  {
    hide EscapeChar;
    var p, q := Escape(a) + "\"" + r, Escape(b) + "\"" + s;
    EscapedHead(a, r);
    EscapedHead(b, s);
    if a == "" && b == "" {
      assert r == p[1..] && s == q[1..];
    } else if a != "" && b != "" {
      CharUnique(a[0], b[0], Escape(a[1..]) + "\"" + r, Escape(b[1..]) + "\"" + s);
      EscapeUnique(a[1..], b[1..], r, s);
      assert a == [a[0]] + a[1..] && b == [b[0]] + b[1..];
    }
  }

  lemma EscapedHead(a: string, r: string)
    ensures var p := Escape(a) + "\"" + r;
      && p != "" && (a == "" <==> p[0] == '"')
      && (a == "" ==> p[1..] == r)
      && (a != "" ==> p == EscapeChar(a[0]) + (Escape(a[1..]) + "\"" + r))
  {
    hide EscapeChar;
    var p := Escape(a) + "\"" + r;
    if a == "" {
      assert p == "\"" + r;
    } else {
      var e, rest := EscapeChar(a[0]), Escape(a[1..]) + "\"" + r;
      assert p == e + rest;
      assert p[0] == e[0];
    }
  }

  lemma StringifyUnique(a: string, b: string, r: string, s: string)
    requires Stringify(a) + r == Stringify(b) + s
    ensures a == b && r == s
  {
    hide Escape;
    StringifyTail(a, r);
    StringifyTail(b, s);
    EscapeUnique(a, b, r, s);
  }

  lemma StringifyTail(a: string, r: string)
    ensures (Stringify(a) + r)[1..] == Escape(a) + "\"" + r
  {
    hide Escape;
    assert Stringify(a) + r == "\"" + (Escape(a) + "\"" + r);
  }

  // ----- Numbers -----

  predicate Delimited(r: string) {
    r == "" || r[0] == ',' || r[0] == ']' || r[0] == '}'
  }

  predicate IsNumberText(t: string) {
    t != "" && (t[0] == '-' || '0' <= t[0] <= '9') && forall c | c in t :: IsNumberChar(c)
  }

  lemma RunUnique(t: string, u: string, r: string, s: string)
    requires (forall c | c in t :: IsNumberChar(c)) && (forall c | c in u :: IsNumberChar(c))
    requires Delimited(r) && Delimited(s) && t + r == u + s
    ensures t == u && r == s
  {
    RunLength(t, u, r, s);
    RunLength(u, t, s, r);
    assert t == (t + r)[..|t|] && r == (t + r)[|t|..];
    assert u == (u + s)[..|u|] && s == (u + s)[|u|..];
  }

  lemma RunChar(u: string, s: string, i: nat)
    requires i < |u| && forall c | c in u :: IsNumberChar(c)
    ensures IsNumberChar((u + s)[i])
  {
  }

  /** A run of number characters cannot stop at a delimiter inside a longer one. */
  lemma RunLength(t: string, u: string, r: string, s: string)
    requires (forall c | c in u :: IsNumberChar(c)) && Delimited(r) && t + r == u + s
    ensures |t| >= |u|
  {
    assert r != "" ==> (t + r)[|t|] == r[0];
    if |t| < |u| { RunChar(u, s, |t|); }
  }

  lemma {:induction false} DigitsUnique(m: nat, n: nat)
    requires DigitsText(m) == DigitsText(n)
    ensures m == n
  {
    var t := DigitsText(m);
    var x, y := ('0' as int + m % 10) as char, ('0' as int + n % 10) as char;
    assert t[|t| - 1] == x == y;
    assert m % 10 == n % 10;
    if m >= 10 && n >= 10 {
      assert t[..|t| - 1] == DigitsText(m / 10) == DigitsText(n / 10);
      DigitsUnique(m / 10, n / 10);
    }
  }

  lemma IntUnique(m: int, n: int)
    requires IntText(m) == IntText(n)
    ensures m == n
  {
    if m < 0 && n < 0 {
      assert IntText(m)[1..] == DigitsText(-m) && IntText(n)[1..] == DigitsText(-n);
      DigitsUnique(-m, -n);
    } else if m >= 0 && n >= 0 {
      DigitsUnique(m, n);
    } else if m < 0 {
      assert DigitsText(n)[0] in DigitsText(n);
    } else {
      assert DigitsText(m)[0] in DigitsText(m);
    }
  }

  lemma IntTextPlain(n: int)
    ensures IsNumberText(IntText(n)) && !HasPoint(IntText(n))
  {
    var d := DigitsText(if n < 0 then -n else n);
    assert d[0] in d;
  }

  lemma FiniteTextPointed(text: string)
    requires IsFloatText(text)
    ensures IsNumberText(FiniteText(text)) && HasPoint(FiniteText(text))
    ensures FiniteText(text) != "-0.0"
  {
    if !HasPoint(text) {
      assert '.' in ".0" && '.' in text + ".0";
      assert text == (text + ".0")[..|text + ".0"| - 2] && "-0.0"[..2] == "-0";
    } else {
      assert "-0.0"[2..] == ".0";
    }
  }

  lemma FiniteUnique(t: string, u: string)
    requires IsFloatText(t) && IsFloatText(u) && FiniteText(t) == FiniteText(u)
    ensures t == u
  {
    assert (t + ".0")[..|t + ".0"| - 2] == t && (t + ".0")[|t + ".0"| - 2..] == ".0";
    assert (u + ".0")[..|u + ".0"| - 2] == u && (u + ".0")[|u + ".0"| - 2..] == ".0";
  }

  // ----- Joined lists -----

  /** What follows an element of a joined list up to and including the closing bracket. */
  function After(parts: seq<string>, close: char, r: string): string {
    if parts == [] then [close] + r else "," + Join(parts, ',') + [close] + r
  }

  lemma JoinCons(first: string, rest: seq<string>, close: char, r: string)
    ensures Join([first] + rest, ',') + [close] + r == first + After(rest, close, r)
  {
    assert ([first] + rest)[1..] == rest;
    if rest != [] {
      assert first + [','] + Join(rest, ',') + [close] + r == first + ("," + Join(rest, ',') + [close] + r);
    }
  }

  lemma AfterUnique(xs: seq<string>, ys: seq<string>, close: char, r: string, s: string)
    requires After(xs, close, r) == After(ys, close, s) && close != ','
    ensures xs == [] <==> ys == []
    ensures xs == [] ==> r == s
    ensures xs != [] ==> Join(xs, ',') + [close] + r == Join(ys, ',') + [close] + s
  {
    hide Join;
    AfterHead(xs, close, r);
    AfterHead(ys, close, s);
  }

  lemma AfterHead(xs: seq<string>, close: char, r: string)
    ensures var a := After(xs, close, r);
      && a != "" && a[0] == (if xs == [] then close else ',')
      && a[1..] == if xs == [] then r else Join(xs, ',') + [close] + r
  {
    hide Join;
    if xs != [] {
      assert After(xs, close, r) == "," + (Join(xs, ',') + [close] + r);
    }
  }

  // ----- Kinds of values -----

  /** Values written as a tagged object. */
  predicate IsTagged(v: Toml) {
    v.Date? || (v.Flt? && !v.float.Finite? && !v.float.NegZero?)
  }

  /** The table a tagged value is written like. */
  function AsTable(v: Toml): (t: Toml)
    requires IsTagged(v)
    ensures Size(t) < Size(v) && t.Tab?
  {
    var e := match v
      case Date(iso) => Entry("$datetime", Str(iso))
      case Flt(NotANumber) => Entry("$float", Str("nan"))
      case Flt(PosInf) => Entry("$float", Str("+inf"))
      case Flt(_) => Entry("$float", Str("-inf"));
    OneEntrySize(e.key, e.value.text);
    Tab([e])
  }

  lemma OneEntrySize(key: string, text: string)
    ensures Size(Tab([Entry(key, Str(text))])) == 3
  {
    var entries := [Entry(key, Str(text))];
    assert entries[1..] == [];
    assert EntriesSize(entries) == 1 + Size(Str(text)) + EntriesSize([]);
  }

  lemma OneKey(key: string, text: string)
    ensures var entries := [Entry(key, Str(text))];
      && Keys(entries) == [key] && SortKeys([key]) == [key] && Distinct([key])
      && Lookup(entries, key) == Str(text)
      && EntriesWellFormed(entries)
  {
    var entries := [Entry(key, Str(text))];
    assert entries[1..] == [] && [key][1..] == [];
    assert SortKeys([key]) == InsertKey(SortKeys([]), key);
    assert EntriesWellFormed([]);
  }

  lemma OneCanonical(key: string, text: string)
    ensures Canonicalize(Tab([Entry(key, Str(text))])) == Tagged(key, text)
  {
    hide Escape, Lookup, SortKeys, Join;
    var entries := [Entry(key, Str(text))];
    OneKey(key, text);
    var member := Stringify(key) + ":" + Stringify(text);
    assert [key][1..] == [];
    assert Canonicalize(Str(text)) == Stringify(text);
    assert CanonicalMembers(entries, []) == [];
    assert CanonicalMembers(entries, [key]) == [member] + [];
    assert Join([member], ',') == member by { JoinOne(member); }
    assert [member] + [] == [member];
    assert "{" + member + "}" == "{" + Stringify(key) + ":" + Stringify(text) + "}";
  }

  lemma JoinOne(part: string)
    ensures Join([part], ',') == part
  {
  }

  lemma OneShown(key: string, text: string)
    ensures Shown(Meaning(Tab([Entry(key, Str(text))]))) == One(key, text)
  {
    hide Lookup;
    var entries := [Entry(key, Str(text))];
    OneKey(key, text);
    assert Meaning(Str(text)) == DStr(text);
    assert Meaning(Tab(entries)).fields == map[key := DStr(text)];
    assert Shown(DStr(text)) == DStr(text);
    assert Shown(DTab(map[key := DStr(text)])).fields == map[key := DStr(text)];
  }

  lemma OneEntry(key: string, text: string)
    ensures var t := Tab([Entry(key, Str(text))]);
      WellFormed(t) && Canonicalize(t) == Tagged(key, text) && Shown(Meaning(t)) == One(key, text)
  {
    hide Canonicalize, Shown, Meaning, Tagged, Distinct, EntriesWellFormed, One;
    OneKey(key, text);
    OneCanonical(key, text);
    OneShown(key, text);
  }

  /** A tagged value and its table have one canonical text and show the same data. */
  lemma TaggedAsTable(v: Toml)
    requires IsTagged(v)
    ensures var t := AsTable(v);
      WellFormed(t) && Canonicalize(t) == Canonicalize(v) && Shown(Meaning(t)) == Shown(Meaning(v))
  {
    hide Shown, Tagged, Stringify;
    var e := AsTable(v).entries[0];
    OneEntry(e.key, e.value.text);
    ShownTagged(v);
  }

  lemma ShownTagged(v: Toml)
    requires IsTagged(v)
    ensures var e := AsTable(v).entries[0];
      Shown(Meaning(v)) == One(e.key, e.value.text) && Canonicalize(v) == Tagged(e.key, e.value.text)
  {
    hide Tagged;
  }

  datatype Kind = KNull | KStr | KTrue | KFalse | KNumber | KArr | KTab

  function KindOf(v: Toml): Kind {
    match v
    case Null => KNull
    case Str(_) => KStr
    case Bool(flag) => if flag then KTrue else KFalse
    case Int(_) => KNumber
    case Flt(_) => KNumber
    case Date(_) => KTab
    case Arr(_) => KArr
    case Tab(_) => KTab
  }

  /** What the first character of a canonical text tells. */
  function KindOfHead(c: char): Kind {
    if c == 'n' then KNull else if c == '"' then KStr else if c == 't' then KTrue else if c == 'f' then KFalse
    else if c == '[' then KArr else if c == '{' then KTab else KNumber
  }

  lemma HeadTellsKind(v: Toml)
    requires WellFormed(v) && !IsTagged(v)
    ensures Canonicalize(v) != "" && KindOfHead(Canonicalize(v)[0]) == KindOf(v)
    ensures KindOf(v) == KNumber ==> IsNumberText(Canonicalize(v))
    ensures Canonicalize(v)[0] != ']' && Canonicalize(v)[0] != '}'
  {
    hide CanonicalItems, CanonicalMembers, Join, Escape, SortKeys, Keys, WellFormed, IsTagged;
    match v
    case Int(n) => IntTextPlain(n);
    case Flt(_) => FloatHead(v);
    case Date(_) => DatesAreTagged(v);
    case Arr(items) =>
      assert ("[" + Join(CanonicalItems(items), ',') + "]")[0] == '[';
    case Tab(entries) =>
      assert ("{" + Join(CanonicalMembers(entries, SortKeys(Keys(entries))), ',') + "}")[0] == '{';
    case _ =>
  }

  lemma DatesAreTagged(v: Toml)
    ensures v.Date? ==> IsTagged(v)
  {
  }

  lemma FloatHead(v: Toml)
    requires WellFormed(v) && !IsTagged(v) && v.Flt?
    ensures Canonicalize(v) != "" && KindOfHead(Canonicalize(v)[0]) == KNumber && IsNumberText(Canonicalize(v))
    ensures Canonicalize(v)[0] != ']' && Canonicalize(v)[0] != '}'
  {
    if v.float.Finite? { FiniteTextPointed(v.float.text); }
  }

  lemma NumberUnique(a: Toml, b: Toml)
    requires WellFormed(a) && WellFormed(b) && !IsTagged(a) && !IsTagged(b)
    requires KindOf(a) == KindOf(b) == KNumber && Canonicalize(a) == Canonicalize(b)
    ensures a == b
  {
    hide IsFloatText, FiniteText, IntText;
    NumberPoint(a);
    NumberPoint(b);
    if a.Int? && b.Int? {
      IntUnique(a.number, b.number);
    } else if a.Flt? && b.Flt? && a.float.Finite? && b.float.Finite? {
      FiniteUnique(a.float.text, b.float.text);
    }
  }

  /** Floats are spelled with a point or an exponent, integers without. */
  lemma NumberPoint(v: Toml)
    requires WellFormed(v) && !IsTagged(v) && KindOf(v) == KNumber
    ensures HasPoint(Canonicalize(v)) <==> v.Flt?
    ensures Canonicalize(v) == "-0.0" <==> v == Flt(NegZero)
  {
    match v
    case Int(n) =>
      IntTextPlain(n);
      assert '.' in "-0.0";
    case Flt(Finite(text)) => FiniteTextPointed(text);
    case Flt(NegZero) => assert '.' in "-0.0";
    case _ =>
  }

  // ----- Unique reading -----

  function ShownValue(v: Toml): Data {
    Shown(Meaning(v))
  }

  /** Texts that agree up to a delimiter come from values that show the same data. */
  lemma {:induction false} ReadUnique(a: Toml, b: Toml, r: string, s: string)
    requires WellFormed(a) && WellFormed(b) && Delimited(r) && Delimited(s)
    requires Canonicalize(a) + r == Canonicalize(b) + s
    ensures ShownValue(a) == ShownValue(b) && r == s
    decreases Size(a) + Size(b), 3
  {
    hide Canonicalize, WellFormed, Delimited, AsTable, Meaning, Shown;
    if IsTagged(a) {
      TaggedAsTable(a);
      ReadUnique(AsTable(a), b, r, s);
    } else if IsTagged(b) {
      TaggedAsTable(b);
      ReadUnique(a, AsTable(b), r, s);
    } else {
      ReadUntagged(a, b, r, s);
    }
  }

  lemma {:induction false} ReadUntagged(a: Toml, b: Toml, r: string, s: string)
    requires WellFormed(a) && WellFormed(b) && Delimited(r) && Delimited(s) && !IsTagged(a) && !IsTagged(b)
    requires Canonicalize(a) + r == Canonicalize(b) + s
    ensures ShownValue(a) == ShownValue(b) && r == s
    decreases Size(a) + Size(b), 2
  {
    hide Canonicalize, WellFormed, Delimited, Meaning, Shown;
    HeadTellsKind(a);
    HeadTellsKind(b);
    assert (Canonicalize(a) + r)[0] == Canonicalize(a)[0] && (Canonicalize(b) + s)[0] == Canonicalize(b)[0];
    assert KindOf(a) == KindOf(b);
    match KindOf(a)
    case KNumber =>
      NumberRun(a, b, r, s);
    case KArr =>
      ArrayWellFormed(a.items);
      ArrayWellFormed(b.items);
      ArrayParts(a.items, r);
      ArrayParts(b.items, s);
      ReadItems(a.items, b.items, r, s);
      ItemsShown(a.items, b.items);
    case KTab =>
      ReadTables(a.entries, b.entries, r, s);
    case KStr =>
      StringParts(a);
      StringParts(b);
      StringifyUnique(a.text, b.text, r, s);
    case _ =>
      assert a == b;
      assert r == (Canonicalize(a) + r)[|Canonicalize(a)|..] && s == (Canonicalize(b) + s)[|Canonicalize(b)|..];
  }

  lemma NumberRun(a: Toml, b: Toml, r: string, s: string)
    requires WellFormed(a) && WellFormed(b) && Delimited(r) && Delimited(s) && !IsTagged(a) && !IsTagged(b)
    requires KindOf(a) == KindOf(b) == KNumber && Canonicalize(a) + r == Canonicalize(b) + s
    ensures a == b && r == s
  {
    hide Canonicalize, WellFormed, Delimited;
    HeadTellsKind(a);
    HeadTellsKind(b);
    RunUnique(Canonicalize(a), Canonicalize(b), r, s);
    NumberUnique(a, b);
  }

  lemma StringParts(v: Toml)
    requires v.Str?
    ensures Canonicalize(v) == Stringify(v.text)
  {
  }

  lemma ArrayWellFormed(items: seq<Toml>)
    ensures WellFormed(Arr(items)) <==> ItemsWellFormed(items)
  {
  }

  lemma ArrayParts(items: seq<Toml>, r: string)
    ensures (Canonicalize(Arr(items)) + r)[1..] == Join(CanonicalItems(items), ',') + [']'] + r
  {
    hide Join, CanonicalItems;
    assert Canonicalize(Arr(items)) + r == "[" + (Join(CanonicalItems(items), ',') + [']'] + r);
  }

  lemma TableParts(entries: seq<Entry>, r: string)
    ensures (Canonicalize(Tab(entries)) + r)[1..]
         == Join(CanonicalMembers(entries, SortKeys(Keys(entries))), ',') + ['}'] + r
  {
    hide Join, CanonicalMembers, SortKeys;
    var m := CanonicalMembers(entries, SortKeys(Keys(entries)));
    assert Canonicalize(Tab(entries)) + r == "{" + (Join(m, ',') + ['}'] + r);
  }

  ghost predicate SameItems(xs: seq<Toml>, ys: seq<Toml>) {
    |xs| == |ys| && forall i | 0 <= i < |xs| :: ShownValue(xs[i]) == ShownValue(ys[i])
  }

  lemma {:induction false} MeaningAt(items: seq<Toml>, i: nat)
    requires i < |items|
    ensures MeaningItems(items)[i] == Meaning(items[i])
  {
    hide Meaning;
    if i > 0 { MeaningAt(items[1..], i - 1); }
  }

  lemma ItemsShown(xs: seq<Toml>, ys: seq<Toml>)
    requires SameItems(xs, ys)
    ensures ShownValue(Arr(xs)) == ShownValue(Arr(ys))
  {
    var a, b := MeaningItems(xs), MeaningItems(ys);
    forall i | 0 <= i < |xs| ensures Shown(a[i]) == Shown(b[i]) {
      MeaningAt(xs, i);
      MeaningAt(ys, i);
      assert ShownValue(xs[i]) == ShownValue(ys[i]);
    }
    var c, d := Shown(DArr(a)), Shown(DArr(b));
    assert c.items == d.items;
  }

  lemma ItemsHead(items: seq<Toml>, r: string)
    requires ItemsWellFormed(items)
    ensures var t := Join(CanonicalItems(items), ',') + [']'] + r;
      && t != "" && (t[0] == ']' <==> items == [])
      && (items == [] ==> t[1..] == r)
      && (items != [] ==> t == Canonicalize(items[0]) + After(CanonicalItems(items[1..]), ']', r))
  {
    hide Canonicalize, After;
    if items == [] {
      assert Join(CanonicalItems(items), ',') + [']'] + r == [']'] + r;
    } else {
      hide Join;
      JoinCons(Canonicalize(items[0]), CanonicalItems(items[1..]), ']', r);
      ValueHead(items[0]);
    }
  }

  lemma ValueHead(v: Toml)
    requires WellFormed(v)
    ensures Canonicalize(v) != "" && Canonicalize(v)[0] != ']' && Canonicalize(v)[0] != '}'
  {
    hide Canonicalize, AsTable;
    if IsTagged(v) {
      TaggedAsTable(v);
      HeadTellsKind(AsTable(v));
    } else {
      HeadTellsKind(v);
    }
  }

  lemma {:induction false} ReadItems(xs: seq<Toml>, ys: seq<Toml>, r: string, s: string)
    requires ItemsWellFormed(xs) && ItemsWellFormed(ys)
    requires Join(CanonicalItems(xs), ',') + [']'] + r == Join(CanonicalItems(ys), ',') + [']'] + s
    ensures SameItems(xs, ys) && r == s
    decreases ItemsSize(xs) + ItemsSize(ys), 1
  {
    hide Canonicalize, Join, After, Meaning, Shown, ShownValue, WellFormed, Delimited;
    ItemsHead(xs, r);
    ItemsHead(ys, s);
    if xs != [] {
      var xr, yr := CanonicalItems(xs[1..]), CanonicalItems(ys[1..]);
      AfterDelimited(xr, ']', r);
      AfterDelimited(yr, ']', s);
      ReadUnique(xs[0], ys[0], After(xr, ']', r), After(yr, ']', s));
      AfterUnique(xr, yr, ']', r, s);
      ItemsEmpty(xs[1..]);
      ItemsEmpty(ys[1..]);
      if xs[1..] != [] {
        ReadItems(xs[1..], ys[1..], r, s);
      }
      forall i | 0 <= i < |xs| ensures ShownValue(xs[i]) == ShownValue(ys[i]) {
        if i > 0 { assert xs[i] == xs[1..][i - 1] && ys[i] == ys[1..][i - 1]; }
      }
    }
  }

  lemma ItemsEmpty(items: seq<Toml>)
    ensures CanonicalItems(items) == [] <==> items == []
  {
  }

  lemma AfterDelimited(xs: seq<string>, close: char, r: string)
    requires close == ']' || close == '}'
    ensures Delimited(After(xs, close, r))
  {
    AfterHead(xs, close, r);
  }

  // ----- Tables -----

  ghost predicate KeysIn(keys: seq<string>, entries: seq<Entry>) {
    forall k | k in keys :: k in Keys(entries)
  }

  function MemberTail(entries: seq<Entry>, keys: seq<string>, r: string): string
    requires keys != [] && keys[0] in Keys(entries)
  {
    Canonicalize(Lookup(entries, keys[0])) + After(CanonicalMembers(entries, keys[1..]), '}', r)
  }

  lemma MembersHead(entries: seq<Entry>, keys: seq<string>, r: string)
    requires KeysIn(keys, entries)
    ensures var t := Join(CanonicalMembers(entries, keys), ',') + ['}'] + r;
      && t != "" && (t[0] == '}' <==> keys == [])
      && (keys == [] ==> t[1..] == r)
      && (keys != [] ==> t == Stringify(keys[0]) + (":" + MemberTail(entries, keys, r)))
  {
    hide *;
    MembersCons(entries, keys);
    if keys == [] {
      JoinNothing(r);
    } else {
      var value, rest := Canonicalize(Lookup(entries, keys[0])), CanonicalMembers(entries, keys[1..]);
      var head := Stringify(keys[0]);
      JoinCons(head + ":" + value, rest, '}', r);
      assert head + ":" + value + After(rest, '}', r) == head + (":" + (value + After(rest, '}', r)));
      TailParts(entries, keys, r);
      QuoteFirst(keys[0], ":" + MemberTail(entries, keys, r));
    }
  }

  lemma MembersCons(entries: seq<Entry>, keys: seq<string>)
    requires KeysIn(keys, entries)
    ensures keys == [] ==> CanonicalMembers(entries, keys) == []
    ensures keys != [] ==>
      && keys[0] in Keys(entries)
      && CanonicalMembers(entries, keys)
         == [Stringify(keys[0]) + ":" + Canonicalize(Lookup(entries, keys[0]))] + CanonicalMembers(entries, keys[1..])
  {
    hide Canonicalize, Stringify, Lookup;
  }

  lemma JoinNothing(r: string)
    ensures var t := Join([], ',') + ['}'] + r; t != "" && t[0] == '}' && t[1..] == r
  {
    assert Join([], ',') + ['}'] + r == ['}'] + r;
  }

  lemma TailParts(entries: seq<Entry>, keys: seq<string>, r: string)
    requires keys != [] && keys[0] in Keys(entries)
    ensures MemberTail(entries, keys, r)
         == Canonicalize(Lookup(entries, keys[0])) + After(CanonicalMembers(entries, keys[1..]), '}', r)
  {
    hide Canonicalize, Lookup, After, CanonicalMembers;
  }

  lemma QuoteFirst(key: string, rest: string)
    ensures var t := Stringify(key) + rest; t != "" && t[0] == '"'
  {
    hide Escape;
  }

  lemma MembersEmpty(entries: seq<Entry>, keys: seq<string>)
    requires KeysIn(keys, entries)
    ensures CanonicalMembers(entries, keys) == [] <==> keys == []
  {
    hide Canonicalize;
  }

  ghost predicate SameMembers(es: seq<Entry>, fs: seq<Entry>, keys: seq<string>)
    requires KeysIn(keys, es) && KeysIn(keys, fs)
  {
    forall k | k in keys :: ShownValue(Lookup(es, k)) == ShownValue(Lookup(fs, k))
  }

  lemma {:induction false} ReadMembers(es: seq<Entry>, ks: seq<string>, fs: seq<Entry>, ls: seq<string>, r: string, s: string)
    requires EntriesWellFormed(es) && EntriesWellFormed(fs) && KeysIn(ks, es) && KeysIn(ls, fs)
    requires Join(CanonicalMembers(es, ks), ',') + ['}'] + r == Join(CanonicalMembers(fs, ls), ',') + ['}'] + s
    ensures ks == ls && SameMembers(es, fs, ks) && r == s
    decreases EntriesSize(es) + EntriesSize(fs), 1, |ks|
  {
    hide Canonicalize, Join, After, Meaning, Shown, ShownValue, WellFormed, Delimited, Stringify, CanonicalMembers, Lookup;
    MembersHead(es, ks, r);
    MembersHead(fs, ls, s);
    if ks != [] {
      var x, y := MemberTail(es, ks, r), MemberTail(fs, ls, s);
      StringifyUnique(ks[0], ls[0], ":" + x, ":" + y);
      assert x == (":" + x)[1..] && y == (":" + y)[1..];
      LookupWellFormed(es, ks[0]);
      LookupWellFormed(fs, ls[0]);
      var xr, yr := CanonicalMembers(es, ks[1..]), CanonicalMembers(fs, ls[1..]);
      AfterDelimited(xr, '}', r);
      AfterDelimited(yr, '}', s);
      ReadUnique(Lookup(es, ks[0]), Lookup(fs, ls[0]), After(xr, '}', r), After(yr, '}', s));
      AfterUnique(xr, yr, '}', r, s);
      MembersEmpty(es, ks[1..]);
      MembersEmpty(fs, ls[1..]);
      if ks[1..] != [] {
        ReadMembers(es, ks[1..], fs, ls[1..], r, s);
      }
      assert ks == [ks[0]] + ks[1..] && ls == [ls[0]] + ls[1..];
    }
  }

  lemma SortedKeysIn(entries: seq<Entry>)
    requires Distinct(Keys(entries))
    ensures KeysIn(SortKeys(Keys(entries)), entries) && Ascending(SortKeys(Keys(entries)))
    ensures forall k | k in Keys(entries) :: k in SortKeys(Keys(entries))
  {
    var keys := Keys(entries);
    SortKeysCorrect(keys);
    forall k | k in keys ensures k in SortKeys(keys) { assert k in Elements(keys); }
    forall k | k in SortKeys(keys) ensures k in keys { assert k in Elements(SortKeys(keys)); }
  }

  lemma TablesShown(es: seq<Entry>, fs: seq<Entry>)
    requires forall k :: k in Keys(es) <==> k in Keys(fs)
    requires forall k | k in Keys(es) :: ShownValue(Lookup(es, k)) == ShownValue(Lookup(fs, k))
    ensures ShownValue(Tab(es)) == ShownValue(Tab(fs))
  {
    hide *;
    ShownFields(es);
    ShownFields(fs);
    SameMap(ShownValue(Tab(es)).fields, ShownValue(Tab(fs)).fields);
  }

  lemma SameMap<K, V>(m: map<K, V>, n: map<K, V>)
    requires forall k :: k in m <==> k in n
    requires forall k | k in m :: m[k] == n[k]
    ensures m == n
  {
  }

  lemma ShownFields(es: seq<Entry>)
    ensures ShownValue(Tab(es)).DTab?
    ensures var m := ShownValue(Tab(es)).fields;
      (forall k :: k in m <==> k in Keys(es)) && forall k | k in Keys(es) :: m[k] == ShownValue(Lookup(es, k))
  {
    hide Lookup;
  }

  lemma {:induction false} ReadTables(es: seq<Entry>, fs: seq<Entry>, r: string, s: string)
    requires WellFormed(Tab(es)) && WellFormed(Tab(fs)) && Canonicalize(Tab(es)) + r == Canonicalize(Tab(fs)) + s
    ensures ShownValue(Tab(es)) == ShownValue(Tab(fs)) && r == s
    decreases EntriesSize(es) + EntriesSize(fs), 2
  {
    hide Canonicalize, Join, SortKeys, CanonicalMembers, Lookup, Meaning, Shown, ShownValue;
    TableParts(es, r);
    TableParts(fs, s);
    SortedKeysIn(es);
    SortedKeysIn(fs);
    ReadMembers(es, SortKeys(Keys(es)), fs, SortKeys(Keys(fs)), r, s);
    TablesShown(es, fs);
  }
}
