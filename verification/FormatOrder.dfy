/**
 The order SEP-1 asks for, in the words of the document: which keys stand before which, and
 which sections, by the names that are written in the file.
 */
module FormatOrder {
  import opened JsText
  import opened Wrappers
  import opened FormatScan
  import opened FormatDoc
  import opened FormatRescan
  import opened FormatIdempotence
  import opened Sep1Names
  import Sorting

  // ----- Names in the file -----

  /** `key` is `field`, bare or in quotes, with white space around it and what follows its dot. */
  ghost predicate Spelt(key: string, field: string, w1: string, x: string, w2: string, rest: string) {
    && key == w1 + x + w2 + rest && AllSpace(w1) && AllSpace(w2)
    && (x == field || x == "\"" + field + "\"") && (rest == "" || rest[0] == '.')
  }

  /** The first part of a key is `field`. */
  ghost predicate Starts(key: string, field: string) {
    exists w1, x, w2, rest :: Spelt(key, field, w1, x, w2, rest)
  }

  /** The key starts with none of the fields. */
  ghost predicate Unlisted(key: string, fields: seq<string>) {
    forall f | f in fields :: !Starts(key, f)
  }

  /** The section is `head` or one below it. */
  ghost predicate Under(name: string, head: string) {
    name == head || exists rest :: name == head + "." + rest
  }

  const SECTIONS: seq<string> := ["DOCUMENTATION", "PRINCIPALS", "CURRENCIES", "VALIDATORS"]

  /** The order of fields in SEP-1, for the root table and the four sections. */
  function FieldsOf(head: string): seq<string> {
    match head
    case "" =>
      ["VERSION", "NETWORK_PASSPHRASE", "FEDERATION_SERVER", "AUTH_SERVER", "TRANSFER_SERVER",
       "TRANSFER_SERVER_SEP0024", "KYC_SERVER", "WEB_AUTH_ENDPOINT", "WEB_AUTH_FOR_CONTRACTS_ENDPOINT",
       "WEB_AUTH_CONTRACT_ID", "SIGNING_KEY", "HORIZON_URL", "ACCOUNTS", "URI_REQUEST_SIGNING_KEY",
       "DIRECT_PAYMENT_SERVER", "ANCHOR_QUOTE_SERVER"]
    case "DOCUMENTATION" =>
      ["ORG_NAME", "ORG_DBA", "ORG_URL", "ORG_LOGO", "ORG_DESCRIPTION", "ORG_PHYSICAL_ADDRESS",
       "ORG_PHYSICAL_ADDRESS_ATTESTATION", "ORG_PHONE_NUMBER", "ORG_PHONE_NUMBER_ATTESTATION", "ORG_KEYBASE",
       "ORG_TWITTER", "ORG_GITHUB", "ORG_TELEGRAM", "ORG_OFFICIAL_EMAIL", "ORG_SUPPORT_EMAIL",
       "ORG_LICENSING_AUTHORITY", "ORG_LICENSE_TYPE", "ORG_LICENSE_NUMBER", "ORG_TERMS_OF_SERVICE",
       "ORG_PRIVACY_POLICY"]
    case "PRINCIPALS" =>
      ["name", "email", "keybase", "telegram", "twitter", "github", "id_photo_hash", "verification_photo_hash"]
    case "CURRENCIES" =>
      ["code", "issuer", "contract", "code_template", "status", "display_decimals", "name", "desc", "conditions",
       "image", "fixed_number", "max_number", "is_unlimited", "is_asset_anchored", "anchor_asset_type",
       "anchor_asset", "attestation_of_reserve", "redemption_instructions", "collateral_addresses",
       "collateral_address_messages", "collateral_address_signatures", "regulated", "approval_server",
       "approval_criteria", "toml"]
    case "VALIDATORS" =>
      ["ALIAS", "DISPLAY_NAME", "PUBLIC_KEY", "HOST", "HISTORY"]
    case _ => []
  }

  /** The fields SEP-1 lists for a section. */
  ghost predicate Listed(name: string, fields: seq<string>) {
    || (name == "" && fields == FieldsOf(""))
    || exists head | head in SECTIONS :: Under(name, head) && fields == FieldsOf(head)
  }

  /** The elements that satisfy `p`, in order. */
  ghost function Where<T>(s: seq<T>, p: T -> bool): seq<T> {
    if s == [] then [] else Where(s[..|s| - 1], p) + if p(s[|s| - 1]) then [s[|s| - 1]] else []
  }

  // ----- The lists -----

  /** Plain words, none of them twice. */
  ghost predicate Names(list: seq<string>) {
    && (forall f | f in list :: IsName(f))
    && forall i, j | 0 <= i < j < |list| :: list[i] != list[j]
  }

  lemma SameLists()
    ensures FieldsOf("") == GLOBAL_FIELDS && FieldsOf("DOCUMENTATION") == DOCUMENTATION_FIELDS
    ensures FieldsOf("PRINCIPALS") == PRINCIPAL_FIELDS && FieldsOf("CURRENCIES") == CURRENCY_FIELDS
    ensures FieldsOf("VALIDATORS") == VALIDATOR_FIELDS
  {
  }

  /** Which list that is. */
  lemma ListedIs(name: string, fields: seq<string>)
    ensures Listed(name, fields) <==>
      || (name == "" && fields == GLOBAL_FIELDS)
      || (Under(name, "DOCUMENTATION") && fields == DOCUMENTATION_FIELDS)
      || (Under(name, "PRINCIPALS") && fields == PRINCIPAL_FIELDS)
      || (Under(name, "CURRENCIES") && fields == CURRENCY_FIELDS)
      || (Under(name, "VALIDATORS") && fields == VALIDATOR_FIELDS)
  {
    hide Under, FieldsOf, GLOBAL_FIELDS, DOCUMENTATION_FIELDS, PRINCIPAL_FIELDS, CURRENCY_FIELDS, VALIDATOR_FIELDS;
    SameLists();
    FourSections();
  }

  lemma FourSections()
    ensures forall head :: head in SECTIONS <==>
      head == "DOCUMENTATION" || head == "PRINCIPALS" || head == "CURRENCIES" || head == "VALIDATORS"
  {
  }

  lemma ListedNames(name: string, fields: seq<string>)
    requires Listed(name, fields)
    ensures Names(fields)
  {
    hide Under, IsName, Listed, GLOBAL_FIELDS, DOCUMENTATION_FIELDS, PRINCIPAL_FIELDS, CURRENCY_FIELDS, VALIDATOR_FIELDS;
    ListedIs(name, fields);
    GlobalNames();
    DocumentationNames();
    PrincipalNames();
    CurrencyNames();
    ValidatorNames();
  }

  lemma {:induction false} IndexOf(list: seq<string>, x: string, p: nat)
    requires forall i, j | 0 <= i < j < |list| :: list[i] != list[j]
    ensures p < |list| ==> (IndexIn(list, x) == p <==> x == list[p])
    ensures IndexIn(list, x) <= |list| && (IndexIn(list, x) == |list| <==> x !in list)
  {
    if list != [] {
      IndexOf(list[1..], x, if p == 0 then 0 else p - 1);
      if p > 0 && p < |list| { assert list[p] == list[1..][p - 1] && list[0] != list[p]; }
      assert list == [list[0]] + list[1..];
    }
  }

  // ----- What the ranks mean -----

  lemma NameEnds(f: string)
    requires IsName(f)
    ensures f != "" && '.' !in f && '"' !in f && '\\' !in f && !IsSpace(f[0]) && !IsSpace(f[|f| - 1])
  {
  }

  lemma SpaceIsNoDot(w: string)
    requires AllSpace(w)
    ensures '.' !in w && '"' !in w
  {
  }

  lemma {:induction false} FirstPart(s: string) returns (rest: string)
    ensures s == Split(s, '.')[0] + rest && (rest == "" || rest[0] == '.')
  {
    if s == "" || s[0] == '.' {
      rest := s;
    } else {
      rest := FirstPart(s[1..]);
      assert s == [s[0]] + s[1..];
    }
  }

  lemma {:induction false} SplitFirst(p: string, rest: string)
    requires '.' !in p && (rest == "" || rest[0] == '.')
    ensures Split(p + rest, '.')[0] == p
  {
    if p == "" {
      assert p + rest == rest;
    } else {
      assert (p + rest)[1..] == p[1..] + rest && (p + rest)[0] == p[0];
      SplitFirst(p[1..], rest);
      assert p == [p[0]] + p[1..];
    }
  }

  /** The formatter's reading of a key's first segment, in terms of what is written. */
  lemma SegmentMeans(key: string, field: string)
    requires IsName(field)
    ensures FirstSegment(key) == field <==> Starts(key, field)
  {
    hide Starts, Split, Trim, IsName, FirstSegment, PlainQuoted;
    if FirstSegment(key) == field {
      SegmentStarts(key, field);
    }
    if Starts(key, field) {
      StartsSegment(key, field);
    }
  }

  lemma QuotedText(s: string, content: string)
    requires PlainQuoted(s) == Some(content)
    ensures s == "\"" + content + "\""
  {
    assert s[1..|s| - 1] == content;
  }

  lemma SegmentStarts(key: string, field: string)
    requires FirstSegment(key) == field
    ensures Starts(key, field)
  {
    hide Split, Trim, PlainQuoted, AllSpace;
    if PlainQuoted(Trim(key)).Some? {
      var w1, w2 := TrimParts(key);
      QuotedText(Trim(key), field);
      assert key == w1 + Trim(key) + w2 + "";
      assert Spelt(key, field, w1, Trim(key), w2, "");
    } else {
      var rest := FirstPart(key);
      var head := Split(key, '.')[0];
      var w1, w2 := TrimParts(head);
      if PlainQuoted(Trim(head)).Some? {
        QuotedText(Trim(head), field);
      }
      assert key == w1 + Trim(head) + w2 + rest;
      assert Spelt(key, field, w1, Trim(head), w2, rest);
    }
  }

  lemma StartsSegment(key: string, field: string)
    requires IsName(field) && Starts(key, field)
    ensures FirstSegment(key) == field
  {
    hide Split, Trim, IsName, AllSpace, PlainQuoted, IsSpace;
    var w1, x, w2, rest :| Spelt(key, field, w1, x, w2, rest);
    NameEnds(field);
    SpaceIsNoDot(w1);
    SpaceIsNoDot(w2);
    QuoteIsNoSpace();
    TrimPadded(w1, x, w2);
    SplitFirst(w1 + x + w2, rest);
    HeadIsField(x, field);
    if PlainQuoted(Trim(key)).Some? {
      WholeIsField(key, field, w1, x, w2, rest);
    }
  }

  lemma QuoteIsNoSpace()
    ensures !IsSpace('"')
  {
  }

  lemma HeadIsField(x: string, field: string)
    requires '"' !in field && '\\' !in field && field != "" && (x == field || x == "\"" + field + "\"")
    ensures PlainQuoted(x) == if x == field then None else Some(field)
  {
    if x == field {
      assert x[0] in field;
    } else {
      assert x[1..|x| - 1] == field;
    }
  }

  /** A key that is one quoted text and starts with the field is the field in quotes. */
  lemma WholeIsField(key: string, field: string, w1: string, x: string, w2: string, rest: string)
    requires Spelt(key, field, w1, x, w2, rest) && IsName(field) && PlainQuoted(Trim(key)).Some?
    ensures PlainQuoted(Trim(key)) == Some(field)
  {
    hide Trim, IsName, AllSpace, PlainQuoted, IsSpace, TrimStart, TrimEnd;
    NameEnds(field);
    QuoteIsNoSpace();
    var t, more := Trim(key), w2 + rest;
    var content := PlainQuoted(t).value;
    QuotedText(t, content);
    assert key == w1 + (x + more);
    TrimFrontOnly(w1, x + more);
    TrimLong(w1, x, more);
    NoInnerQuote(t, content);
    QuotedSpelling(x, field);
    if |t| > |x| {
      QuoteInside(t, content, x, more);
      assert false;
    }
    assert t == (x + more)[..|t|] == x;
    HeadIsField(x, field);
  }

  lemma QuotedSpelling(x: string, field: string)
    requires (x == field || x == "\"" + field + "\"") && x != "" && x[0] == '"' && '"' !in field
    ensures x == "\"" + field + "\"" && |x| >= 2 && x[|x| - 1] == '"'
  {
  }

  lemma QuoteInside(t: string, content: string, x: string, more: string)
    requires t == "\"" + content + "\"" && t <= x + more && |t| > |x| >= 2 && x[|x| - 1] == '"'
    ensures '"' in content
  {
    assert content[|x| - 2] == t[|x| - 1] == (x + more)[|x| - 1];
  }

  lemma NoInnerQuote(t: string, content: string)
    requires PlainQuoted(t) == Some(content)
    ensures '"' !in content
  {
  }

  /** Trimming drops the white space in front and keeps a prefix of the rest. */
  lemma TrimFrontOnly(w: string, x: string)
    requires AllSpace(w) && x != "" && !IsSpace(x[0])
    ensures Trim(w + x) <= x && Trim(w + x) != "" && Trim(w + x)[0] == x[0]
  {
    hide TrimEnd;
    TrimFront(w, x);
    EndKeepsFront(x);
  }

  lemma {:induction false} EndKeepsFront(x: string)
    requires x != "" && !IsSpace(x[0])
    ensures TrimEnd(x) <= x && TrimEnd(x) != ""
    decreases |x|
  {
    if IsSpace(x[|x| - 1]) { EndKeepsFront(x[..|x| - 1]); }
  }

  /** And it keeps a front that does not end in white space. */
  lemma TrimLong(w: string, x: string, more: string)
    requires AllSpace(w) && x != "" && !IsSpace(x[0]) && !IsSpace(x[|x| - 1])
    ensures |Trim(w + (x + more))| >= |x|
  {
    hide TrimEnd;
    TrimFront(w, x + more);
    EndKeeps(x, more);
  }

  lemma {:induction false} EndKeeps(x: string, more: string)
    requires x != "" && !IsSpace(x[|x| - 1])
    ensures |TrimEnd(x + more)| >= |x|
    decreases |more|
  {
    if more == "" {
      assert x + more == x;
    } else if IsSpace(more[|more| - 1]) {
      assert (x + more)[..|x + more| - 1] == x + more[..|more| - 1];
      EndKeeps(x, more[..|more| - 1]);
    }
  }

  lemma FieldRankMeans(fields: seq<string>, key: string, p: nat)
    requires Names(fields)
    ensures p < |fields| ==> (FieldRank(fields, key) == p <==> Starts(key, fields[p]))
    ensures FieldRank(fields, key) <= |fields| && (FieldRank(fields, key) == |fields| <==> Unlisted(key, fields))
  {
    hide FirstSegment, Starts, IsName, IndexIn;
    IndexOf(fields, FirstSegment(key), p);
    forall f | f in fields ensures FirstSegment(key) == f <==> Starts(key, f) {
      SegmentMeans(key, f);
    }
  }

  /** The first part of a section's name. */
  lemma UnderMeans(name: string, head: string)
    requires head != "" && '.' !in head
    ensures Split(name, '.')[0] == head <==> Under(name, head)
  {
    hide Split;
    var rest := FirstPart(name);
    if Split(name, '.')[0] == head {
      if rest == "" {
        assert name == head;
      } else {
        assert name == head + "." + rest[1..];
      }
    }
    if name == head {
      SplitFirst(head, "");
      assert head + "" == head;
    } else if Under(name, head) {
      var more :| name == head + "." + more;
      SplitFirst(head, "." + more);
      assert head + "." + more == head + ("." + more);
    }
  }

  lemma FourHeads(name: string)
    ensures Split(name, '.')[0] == "DOCUMENTATION" <==> Under(name, "DOCUMENTATION")
    ensures Split(name, '.')[0] == "PRINCIPALS" <==> Under(name, "PRINCIPALS")
    ensures Split(name, '.')[0] == "CURRENCIES" <==> Under(name, "CURRENCIES")
    ensures Split(name, '.')[0] == "VALIDATORS" <==> Under(name, "VALIDATORS")
  {
    hide Split, Under;
    UnderMeans(name, "DOCUMENTATION");
    UnderMeans(name, "PRINCIPALS");
    UnderMeans(name, "CURRENCIES");
    UnderMeans(name, "VALIDATORS");
  }

  lemma NothingUnder()
    ensures Split("", '.')[0] == ""
  {
  }

  lemma FieldTableMeans(name: string, fields: seq<string>)
    ensures Listed(name, fields) ==> FieldTable(name) == fields
    ensures (forall list :: !Listed(name, list)) ==> FieldTable(name) == []
  {
    hide Split, Under, Listed, GLOBAL_FIELDS, DOCUMENTATION_FIELDS, PRINCIPAL_FIELDS, CURRENCY_FIELDS, VALIDATOR_FIELDS;
    FourHeads(name);
    NothingUnder();
    ListedIs(name, fields);
    ListedIs(name, FieldTable(name));
  }

  // ----- The order of the keys -----

  lemma {:induction false} WhereRank<T>(s: seq<T>, p: T -> bool, rank: T -> int, r: int)
    requires forall x | x in s :: p(x) <==> rank(x) == r
    ensures Where(s, p) == Sorting.OfRank(s, rank, r)
    decreases |s|
  {
    if s != [] {
      var front := s[..|s| - 1];
      WhereRank(front, p, rank, r);
      assert s[|s| - 1] in s;
    }
  }

  /** Keys of listed fields in the order of the list, and all others behind them. */
  ghost predicate KeysInOrder(kvs: seq<Kv>, fields: seq<string>) {
    && (forall i, j, p, q | 0 <= i < j < |kvs| && 0 <= p < |fields| && 0 <= q < |fields|
          && Starts(kvs[i].key, fields[p]) && Starts(kvs[j].key, fields[q]) :: p <= q)
    && forall i, j | 0 <= i < j < |kvs| && Unlisted(kvs[i].key, fields) :: Unlisted(kvs[j].key, fields)
  }

  lemma RanksInOrder(kvs: seq<Kv>, fields: seq<string>)
    requires Names(fields) && Sorting.SortedBy(kvs, (kv: Kv) => FieldRank(fields, kv.key))
    ensures KeysInOrder(kvs, fields)
  {
    hide FieldRank, Starts, Unlisted, Names;
    var rank := (kv: Kv) => FieldRank(fields, kv.key);
    forall i, j, p, q | 0 <= i < j < |kvs| && 0 <= p < |fields| && 0 <= q < |fields|
      && Starts(kvs[i].key, fields[p]) && Starts(kvs[j].key, fields[q])
      ensures p <= q
    {
      FieldRankMeans(fields, kvs[i].key, p);
      FieldRankMeans(fields, kvs[j].key, q);
      assert rank(kvs[i]) <= rank(kvs[j]);
    }
    forall i, j | 0 <= i < j < |kvs| && Unlisted(kvs[i].key, fields) ensures Unlisted(kvs[j].key, fields) {
      FieldRankMeans(fields, kvs[i].key, 0);
      FieldRankMeans(fields, kvs[j].key, 0);
      assert rank(kvs[i]) <= rank(kvs[j]);
    }
  }

  /**
   The key/values of a listed section are written in the order of its fields, the others
   behind them, and each kind in the order of the source.
   */
  lemma KeysSorted(b: Block, fields: seq<string>)
    requires Listed(b.name, fields)
    ensures KeysInOrder(OrderKvs(b), fields) && multiset(OrderKvs(b)) == multiset(b.kvs)
    ensures forall p | 0 <= p < |fields| ::
      Where(OrderKvs(b), (kv: Kv) => Starts(kv.key, fields[p])) == Where(b.kvs, (kv: Kv) => Starts(kv.key, fields[p]))
    ensures Where(OrderKvs(b), (kv: Kv) => Unlisted(kv.key, fields)) == Where(b.kvs, (kv: Kv) => Unlisted(kv.key, fields))
  {
    hide FieldRank, Starts, Unlisted, Names, Listed, KeysInOrder, FieldTable;
    var rank := (kv: Kv) => FieldRank(fields, kv.key);
    ListedNames(b.name, fields);
    FieldTableMeans(b.name, fields);
    Sorting.StableSortCorrect(b.kvs, rank);
    var r := OrderKvs(b);
    assert r == Sorting.StableSort(b.kvs, rank);
    RanksInOrder(r, fields);
    forall p | 0 <= p < |fields|
      ensures Where(r, (kv: Kv) => Starts(kv.key, fields[p])) == Where(b.kvs, (kv: Kv) => Starts(kv.key, fields[p]))
    {
      var q := (kv: Kv) => Starts(kv.key, fields[p]);
      forall kv: Kv ensures q(kv) <==> rank(kv) == p { FieldRankMeans(fields, kv.key, p); }
      WhereRank(r, q, rank, p);
      WhereRank(b.kvs, q, rank, p);
    }
    var q := (kv: Kv) => Unlisted(kv.key, fields);
    forall kv: Kv ensures q(kv) <==> rank(kv) == |fields| { FieldRankMeans(fields, kv.key, 0); }
    WhereRank(r, q, rank, |fields|);
    WhereRank(b.kvs, q, rank, |fields|);
  }

  /** A section SEP-1 does not list keeps its order. */
  lemma OtherKeysStay(b: Block)
    requires forall fields :: !Listed(b.name, fields)
    ensures OrderKvs(b) == b.kvs
  {
    hide FieldTable, FirstSegment, Listed;
    FieldTableMeans(b.name, []);
    Sorting.SortOfSorted(b.kvs, (kv: Kv) => FieldRank([], kv.key));
  }

  // ----- The order of the sections -----

  /** A section under none of the four. */
  ghost predicate Elsewhere(name: string) {
    name != "" && forall head | head in SECTIONS :: !Under(name, head)
  }

  /** The root first, the four in their order, all others behind them. */
  ghost predicate SectionsInOrder(blocks: seq<Block>) {
    && (forall i, j, p, q | 0 <= i < j < |blocks| && 0 <= p < |SECTIONS| && 0 <= q < |SECTIONS|
          && Under(blocks[i].name, SECTIONS[p]) && Under(blocks[j].name, SECTIONS[q]) :: p <= q)
    && (forall i, j | 0 <= i < j < |blocks| && blocks[j].name == "" :: blocks[i].name == "")
    && forall i, j | 0 <= i < j < |blocks| && Elsewhere(blocks[i].name) :: Elsewhere(blocks[j].name)
  }

  lemma RankMeans(name: string, p: nat)
    ensures p < |SECTIONS| ==> (SectionRank(name) == p <==> Under(name, SECTIONS[p]))
    ensures SectionRank(name) == -1 <==> name == ""
    ensures SectionRank(name) <= 4 && (SectionRank(name) == 4 <==> Elsewhere(name))
  {
    hide Split, Under, IndexIn;
    FourHeads(name);
    NothingUnder();
    SectionApart();
    IndexOf(TABLE_ORDER, Split(name, '.')[0], p);
    NotUnder();
  }

  lemma NotUnder()
    ensures forall head | head in SECTIONS :: !Under("", head)
  {
  }

  /** Sections are written in the order of SEP-1, and those of one kind in the order of the source. */
  lemma SectionsSorted(blocks: seq<Block>)
    ensures SectionsInOrder(OrderBlocks(blocks)) && multiset(OrderBlocks(blocks)) == multiset(blocks)
    ensures forall p | 0 <= p < |SECTIONS| ::
      Where(OrderBlocks(blocks), (b: Block) => Under(b.name, SECTIONS[p])) == Where(blocks, (b: Block) => Under(b.name, SECTIONS[p]))
    ensures Where(OrderBlocks(blocks), (b: Block) => Elsewhere(b.name)) == Where(blocks, (b: Block) => Elsewhere(b.name))
  {
    hide SectionRank, Under, Elsewhere, SectionsInOrder;
    var rank := (b: Block) => SectionRank(b.name);
    Sorting.StableSortCorrect(blocks, rank);
    var r := OrderBlocks(blocks);
    assert r == Sorting.StableSort(blocks, rank);
    SectionRanksInOrder(r);
    forall p | 0 <= p < |SECTIONS|
      ensures Where(r, (b: Block) => Under(b.name, SECTIONS[p])) == Where(blocks, (b: Block) => Under(b.name, SECTIONS[p]))
    {
      var q := (b: Block) => Under(b.name, SECTIONS[p]);
      forall b: Block ensures q(b) <==> rank(b) == p { RankMeans(b.name, p); }
      WhereRank(r, q, rank, p);
      WhereRank(blocks, q, rank, p);
    }
    var q := (b: Block) => Elsewhere(b.name);
    forall b: Block ensures q(b) <==> rank(b) == 4 { RankMeans(b.name, 0); }
    WhereRank(r, q, rank, 4);
    WhereRank(blocks, q, rank, 4);
  }

  lemma SectionRanksInOrder(blocks: seq<Block>)
    requires Sorting.SortedBy(blocks, (b: Block) => SectionRank(b.name))
    ensures SectionsInOrder(blocks)
  {
    hide SectionRank, Under, Elsewhere;
    var rank := (b: Block) => SectionRank(b.name);
    forall i, j, p, q | 0 <= i < j < |blocks| && 0 <= p < |SECTIONS| && 0 <= q < |SECTIONS|
      && Under(blocks[i].name, SECTIONS[p]) && Under(blocks[j].name, SECTIONS[q])
      ensures p <= q
    {
      RankMeans(blocks[i].name, p);
      RankMeans(blocks[j].name, q);
      assert rank(blocks[i]) <= rank(blocks[j]);
    }
    forall i, j | 0 <= i < j < |blocks|
      ensures blocks[j].name == "" ==> blocks[i].name == ""
      ensures Elsewhere(blocks[i].name) ==> Elsewhere(blocks[j].name)
    {
      RankMeans(blocks[i].name, 0);
      RankMeans(blocks[j].name, 0);
      assert rank(blocks[i]) <= rank(blocks[j]);
      if blocks[j].name == "" { RankAtLeast(blocks[i].name); }
    }
  }

  // ----- The output -----

  lemma RereadInOrder(b: Block, bare: bool, order: nat, fields: seq<string>)
    requires Listed(b.name, fields)
    ensures KeysInOrder(RereadBlock(b, bare, order).kvs, fields)
  {
    hide Starts, Unlisted, Listed, OrderKvs, Where;
    KeysSorted(b, fields);
    RereadKeys(OrderKvs(b), bare && b.header.None?, order);
  }

  lemma {:induction false} AllInOrder(bs: seq<Block>, bare: bool, order: nat)
    ensures forall b, fields | b in RereadBlocks(bs, bare, order) && Listed(b.name, fields) :: KeysInOrder(b.kvs, fields)
    decreases |bs|
  {
    hide RereadBlock, Listed, KeysInOrder, OrderKvs, BlockLines;
    if bs != [] {
      var first := RereadBlock(bs[0], bare, order);
      var bare', order' := bare && BlockLines(bs[0], bare, "") == [], order + |OrderKvs(bs[0])|;
      AllInOrder(bs[1..], bare', order');
      RereadNamed(bs[0], bare, order);
      forall b, fields | b in RereadBlocks(bs, bare, order) && Listed(b.name, fields) ensures KeysInOrder(b.kvs, fields) {
        if b == first {
          RereadInOrder(bs[0], bare, order, fields);
        } else {
          assert b in RereadBlocks(bs[1..], bare', order');
        }
      }
    }
  }

  lemma RereadNamed(b: Block, bare: bool, order: nat)
    ensures RereadBlock(b, bare, order).name == b.name
  {
  }

  /**
   The text that is written has its sections and, in every section, its keys in the order of
   SEP-1, as a scan of it finds them.
   */
  lemma OutputInOrder(source: string)
    requires Regular(source) && Layout(source).Ok?
    ensures var scan := ScanDocument(Body(Layout(source).value));
      && scan.Ok? && SectionsInOrder(scan.value.blocks)
      && forall b, fields | b in scan.value.blocks && Listed(b.name, fields) :: KeysInOrder(b.kvs, fields)
  {
    hide ScanFrom, OrderBlocks, RenderLines, TidyLines, PlainLines, Split, Join, Layout, Body, NoMark, BlocksOk, Fillers,
      TrailerLines, Listed, KeysInOrder, SectionsInOrder, Where, Under, Elsewhere;
    var lines := Split(Body(source), '\n');
    LayoutByLines(source);
    RootOk();
    ScanOk(lines, 1, [ROOT], [], 0);
    var doc := ScanFrom(lines, 1, [ROOT], [], 0).value;
    var blocks := OrderBlocks(doc.blocks);
    OrderBlocksCorrect(doc.blocks);
    RescanDocument(blocks, doc.trailer);
    LayoutLinesPlain(lines);
    var out := LayoutLines(lines).value;
    BodyOfOutput(source, out);
    ScanOfRendered(out);
    SectionsSorted(doc.blocks);
    RereadSections(blocks);
    AllInOrder(blocks, true, 0);
  }

  lemma RereadSections(blocks: seq<Block>)
    requires SectionsInOrder(blocks)
    ensures SectionsInOrder(RereadBlocks(blocks, true, 0))
  {
    hide RereadBlocks, Under, Elsewhere;
    RereadNames(blocks, true, 0);
  }

  /** A rendered text is scanned as its lines; no lines at all are scanned as one empty line. */
  lemma ScanOfRendered(out: seq<string>)
    requires PlainLines(out) && ScanFrom(out, 1, [ROOT], [], 0).Ok?
    ensures ScanDocument(Join(out, '\n')).Ok?
    ensures ScanDocument(Join(out, '\n')).value.blocks == ScanFrom(out, 1, [ROOT], [], 0).value.blocks
  {
    hide ScanFrom, Split, Join, PlainLines;
    if out == [] {
      ScanOfNothing();
      ScanEnd(1, [ROOT], [], 0);
      NothingJoined();
    } else {
      PlainSplits(out);
    }
  }

  lemma NothingJoined()
    ensures Join([], '\n') == "" && Split("", '\n') == [""]
  {
  }

  /** The blank lines that are written end as the first line of the source does. */
  lemma BlankLinesEnd(line: string, rest: string)
    requires '\n' !in line
    ensures var eol := if line != "" && line[|line| - 1] == '\r' then "\r" else "";
      Eol(line) == eol && Eol(line + "\n" + rest) == eol
  {
    hide Split;
    SplitOfHead(line, '\n', rest);
    assert line + "\n" + rest == line + ['\n'] + rest;
  }
}
