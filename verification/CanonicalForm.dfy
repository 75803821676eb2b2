/**
 The contract of the semantic hash: canonical texts are equal exactly when the
 data they show is equal, and key order is not part of the data.
 */
module CanonicalForm {
  import opened JsText
  import opened Wrappers
  import opened CodePoints
  import opened SemanticHash
  import opened CanonicalReading

  // ----- Same data, same text -----

  lemma ShownConstructor(v: Toml)
    requires !IsTagged(v)
    ensures match v
      case Null => ShownValue(v) == DNull
      case Str(text) => ShownValue(v) == DStr(text)
      case Bool(flag) => ShownValue(v) == DBool(flag)
      case Int(n) => ShownValue(v) == DInt(n)
      case Flt(f) => ShownValue(v) == DFlt(f)
      case Date(_) => true
      case Arr(_) => ShownValue(v).DArr?
      case Tab(_) => ShownValue(v).DTab?
  {
  }

  lemma ShownItems(items: seq<Toml>)
    ensures ShownValue(Arr(items)).DArr?
    ensures var d := ShownValue(Arr(items)).items;
      |d| == |items| && forall i | 0 <= i < |items| :: d[i] == ShownValue(items[i])
  {
    var m := MeaningItems(items);
    assert Meaning(Arr(items)) == DArr(m);
    forall i | 0 <= i < |items| ensures ShownValue(Arr(items)).items[i] == ShownValue(items[i]) {
      MeaningAt(items, i);
    }
  }

  lemma {:induction false} SameItemsText(xs: seq<Toml>, ys: seq<Toml>)
    requires SameItems(xs, ys) && ItemsWellFormed(xs) && ItemsWellFormed(ys)
    ensures CanonicalItems(xs) == CanonicalItems(ys)
    decreases ItemsSize(xs) + ItemsSize(ys), 1
  {
    hide Canonicalize, ShownValue, WellFormed;
    if xs != [] {
      assert ShownValue(xs[0]) == ShownValue(ys[0]);
      SameText(xs[0], ys[0]);
      forall i | 0 <= i < |xs[1..]| ensures ShownValue(xs[1..][i]) == ShownValue(ys[1..][i]) {
        assert xs[1..][i] == xs[i + 1] && ys[1..][i] == ys[i + 1];
      }
      SameItemsText(xs[1..], ys[1..]);
    }
  }

  lemma {:induction false} SameMembersText(es: seq<Entry>, fs: seq<Entry>, keys: seq<string>)
    requires KeysIn(keys, es) && KeysIn(keys, fs) && SameMembers(es, fs, keys)
    requires EntriesWellFormed(es) && EntriesWellFormed(fs)
    ensures CanonicalMembers(es, keys) == CanonicalMembers(fs, keys)
    decreases EntriesSize(es) + EntriesSize(fs), 1, |keys|
  {
    hide Canonicalize, ShownValue, WellFormed, Lookup, Stringify;
    if keys != [] {
      LookupWellFormed(es, keys[0]);
      LookupWellFormed(fs, keys[0]);
      SameText(Lookup(es, keys[0]), Lookup(fs, keys[0]));
      SameMembersText(es, fs, keys[1..]);
    }
  }

  lemma {:induction false} SameText(a: Toml, b: Toml)
    requires WellFormed(a) && WellFormed(b) && ShownValue(a) == ShownValue(b)
    ensures Canonicalize(a) == Canonicalize(b)
    decreases Size(a) + Size(b), 3
  {
    hide Canonicalize, WellFormed, ShownValue, AsTable;
    if IsTagged(a) {
      ShownTaggedValue(a);
      SameText(AsTable(a), b);
    } else if IsTagged(b) {
      ShownTaggedValue(b);
      SameText(a, AsTable(b));
    } else {
      ShownConstructor(a);
      ShownConstructor(b);
      if a.Arr? {
        ShownItems(a.items);
        ShownItems(b.items);
        ArrayWellFormed(a.items);
        ArrayWellFormed(b.items);
        SameItemsText(a.items, b.items);
        ArrayText(a.items);
        ArrayText(b.items);
      } else if a.Tab? {
        SameTableText(a.entries, b.entries);
      }
    }
  }

  lemma ShownTaggedValue(v: Toml)
    requires IsTagged(v)
    ensures var t := AsTable(v);
      WellFormed(t) && Canonicalize(t) == Canonicalize(v) && ShownValue(t) == ShownValue(v)
  {
    hide Canonicalize, AsTable, Shown, Meaning;
    TaggedAsTable(v);
  }

  lemma ArrayText(items: seq<Toml>)
    ensures Canonicalize(Arr(items)) == "[" + Join(CanonicalItems(items), ',') + "]"
  {
  }

  lemma TableText(entries: seq<Entry>)
    ensures Canonicalize(Tab(entries)) == "{" + Join(CanonicalMembers(entries, SortKeys(Keys(entries))), ',') + "}"
    ensures WellFormed(Tab(entries)) <==> Distinct(Keys(entries)) && EntriesWellFormed(entries)
  {
  }

  lemma {:induction false} SameTableText(es: seq<Entry>, fs: seq<Entry>)
    requires WellFormed(Tab(es)) && WellFormed(Tab(fs)) && ShownValue(Tab(es)) == ShownValue(Tab(fs))
    ensures Canonicalize(Tab(es)) == Canonicalize(Tab(fs))
    decreases EntriesSize(es) + EntriesSize(fs), 2
  {
    hide Canonicalize, WellFormed, ShownValue, SortKeys, CanonicalMembers, Lookup, Join, Distinct;
    TableText(es);
    TableText(fs);
    ShownFields(es);
    ShownFields(fs);
    SortedKeysIn(es);
    SortedKeysIn(fs);
    var ks, ls := SortKeys(Keys(es)), SortKeys(Keys(fs));
    assert Elements(ks) == Elements(ls);
    AscendingUnique(ks, ls);
    SameMembersText(es, fs, ks);
  }

  /**
   For all values: equal canonical texts exactly when the texts show equal data.
   Table keys may be in any order on either side.
   */
  lemma CanonicalDecides(a: Toml, b: Toml)
    requires WellFormed(a) && WellFormed(b)
    ensures Canonicalize(a) == Canonicalize(b) <==> ShownValue(a) == ShownValue(b)
  {
    hide Canonicalize, WellFormed, ShownValue;
    if Canonicalize(a) == Canonicalize(b) {
      assert Canonicalize(a) + "" == Canonicalize(b) + "";
      ReadUnique(a, b, "", "");
    }
    if ShownValue(a) == ShownValue(b) {
      SameText(a, b);
    }
  }

  // ----- Impersonation -----

  /** A table a tagged float or date is written like. */
  predicate IsImpersonator(d: Data) {
    d.DTab? && exists k | k in d.fields ::
      && d.fields.Keys == {k} && d.fields[k].DStr?
      && (k == "$datetime" || (k == "$float" && d.fields[k].text in {"nan", "+inf", "-inf"}))
  }

  /** No table anywhere in the data imitates a tag. */
  ghost predicate Genuine(d: Data) {
    !IsImpersonator(d)
    && match d
       case DArr(items) => forall i | 0 <= i < |items| :: Genuine(items[i])
       case DTab(fields) => forall k | k in fields :: Genuine(fields[k])
       case _ => true
  }

  predicate IsTag(d: Data) {
    d.DDate? || (d.DFlt? && !d.float.Finite? && !d.float.NegZero?)
  }

  lemma TagShown(d: Data)
    requires IsTag(d)
    ensures Shown(d).DTab? && IsImpersonator(Shown(d))
  {
    var key := if d.DDate? then "$datetime" else "$float";
    assert key in Shown(d).fields && Shown(d).fields.Keys == {key};
  }

  /** Only an impersonator shows as one. */
  lemma TableShown(fields: map<string, Data>)
    requires IsImpersonator(Shown(DTab(fields)))
    ensures IsImpersonator(DTab(fields))
  {
    var m := Shown(DTab(fields)).fields;
    var k :| k in m && m.Keys == {k} && m[k].DStr?
      && (k == "$datetime" || (k == "$float" && m[k].text in {"nan", "+inf", "-inf"}));
    assert fields.Keys == m.Keys == {k};
    assert m[k] == Shown(fields[k]);
    StringShown(fields[k]);
  }

  lemma StringShown(d: Data)
    requires Shown(d).DStr?
    ensures d == Shown(d)
  {
  }

  lemma {:induction false} ShownInjective(d: Data, e: Data)
    requires Genuine(d) && Genuine(e) && Shown(d) == Shown(e)
    ensures d == e
    decreases d, 1
  {
    if IsTag(d) { TagShown(d); }
    if IsTag(e) { TagShown(e); }
    if d.DTab? && e.DTab? {
      TablesInjective(d, e);
    } else if d.DTab? && IsTag(e) {
      TableShown(d.fields);
    } else if e.DTab? && IsTag(d) {
      TableShown(e.fields);
    } else if d.DArr? && e.DArr? {
      var x, y := Shown(d).items, Shown(e).items;
      forall i | 0 <= i < |d.items| ensures d.items[i] == e.items[i] {
        assert x[i] == Shown(d.items[i]) && y[i] == Shown(e.items[i]);
        ShownInjective(d.items[i], e.items[i]);
      }
    } else if IsTag(d) && IsTag(e) {
      TagsInjective(d, e);
    }
  }

  lemma TagsInjective(d: Data, e: Data)
    requires IsTag(d) && IsTag(e) && Shown(d) == Shown(e)
    ensures d == e
  {
    TagText(d);
    TagText(e);
  }

  lemma TagText(d: Data)
    requires IsTag(d)
    ensures var m := Shown(d).fields;
      match d
      case DDate(iso) => "$float" !in m && "$datetime" in m && m["$datetime"] == DStr(iso)
      case DFlt(f) => "$datetime" !in m && "$float" in m && m["$float"]
          == DStr(match f case NotANumber => "nan" case PosInf => "+inf" case _ => "-inf")
      case _ => true
  {
  }

  lemma {:induction false} TablesInjective(d: Data, e: Data)
    requires d.DTab? && e.DTab? && Genuine(d) && Genuine(e) && Shown(d) == Shown(e)
    ensures d == e
    decreases d, 0
  {
    var m, n := Shown(d).fields, Shown(e).fields;
    assert d.fields.Keys == m.Keys == n.Keys == e.fields.Keys;
    forall k | k in d.fields ensures d.fields[k] == e.fields[k] {
      assert m[k] == Shown(d.fields[k]) && n[k] == Shown(e.fields[k]);
      ShownInjective(d.fields[k], e.fields[k]);
    }
    assert d.fields == e.fields;
  }

  /** Injective on genuine data: equal canonical texts exactly for equal data, up to key order. */
  lemma CanonicalInjective(a: Toml, b: Toml)
    requires WellFormed(a) && WellFormed(b) && Genuine(Meaning(a)) && Genuine(Meaning(b))
    ensures Canonicalize(a) == Canonicalize(b) <==> Meaning(a) == Meaning(b)
  {
    hide Canonicalize, WellFormed, Meaning, Shown, Genuine;
    CanonicalDecides(a, b);
    if Shown(Meaning(a)) == Shown(Meaning(b)) {
      ShownInjective(Meaning(a), Meaning(b));
    }
  }

  /** Without that condition distinct data can collide: a float and a table that imitates it. */
  lemma TaggedCollision()
    ensures var nan, table := Flt(NotANumber), Tab([Entry("$float", Str("nan"))]);
      WellFormed(nan) && WellFormed(table) && Canonicalize(nan) == Canonicalize(table) && Meaning(nan) != Meaning(table)
  {
    hide Canonicalize, Tagged, Shown;
    TaggedAsTable(Flt(NotANumber));
  }

  // ----- semanticallyEqual -----

  /** `semanticHash`, over the parser and the hash it is built from. */
  function SemanticHashOf<H>(parse: string -> Option<Toml>, hash: string -> H, source: string): Option<H> {
    match parse(source)
    case None => None
    case Some(data) => Some(hash(Canonicalize(data)))
  }

  predicate SemanticallyEqual<H(==)>(parse: string -> Option<Toml>, hash: string -> H, left: string, right: string) {
    var a, b := SemanticHashOf(parse, hash, left), SemanticHashOf(parse, hash, right);
    a.Some? && b.Some? && a.value == b.value
  }

  /** With a hash that does not collide on the two texts, equality of sources is equality of their data. */
  lemma SemanticallyEqualMeans<H>(parse: string -> Option<Toml>, hash: string -> H, left: string, right: string)
    requires parse(left).Some? && parse(right).Some?
    requires var a, b := parse(left).value, parse(right).value;
      && WellFormed(a) && WellFormed(b) && Genuine(Meaning(a)) && Genuine(Meaning(b))
      && (hash(Canonicalize(a)) == hash(Canonicalize(b)) ==> Canonicalize(a) == Canonicalize(b))
    ensures SemanticallyEqual(parse, hash, left, right) <==> Meaning(parse(left).value) == Meaning(parse(right).value)
  {
    hide Canonicalize, WellFormed, Meaning, Genuine;
    CanonicalInjective(parse(left).value, parse(right).value);
  }
}
