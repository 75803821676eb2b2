/**
 `src/format-file.ts` as functions: splitting a document into blocks, the
 normalisation of each construct, SEP-1 ordering, and rendering.
 */
module FormatDoc {
  import opened JsText
  import opened Wrappers
  import opened FormatScan
  import Sorting

  datatype Header = Header(line: string, leading: seq<string>)

  datatype Kv = Kv(key: string, lines: seq<string>, leading: seq<string>, spaced: bool, order: nat)

  /** `name` is the dotted table path, empty for the implicit root table. */
  datatype Block = Block(name: string, header: Option<Header>, kvs: seq<Kv>)

  datatype ScanError = Unsupported(line: nat) | Unterminated(line: nat)

  datatype Document = Document(blocks: seq<Block>, trailer: seq<string>)

  datatype Consumed = Consumed(key: string, lines: seq<string>)

  // ----- One line -----

  function StripBlanks(s: string): (r: string)
    ensures r <= s
    ensures r == "" || !IsBlank(r[|r| - 1])
    decreases |s|
  {
    if s != "" && IsBlank(s[|s| - 1]) then StripBlanks(s[..|s| - 1]) else s
  }

  /** `rstripWs`: drops trailing spaces and tabs but keeps a carriage return. */
  function RstripWs(s: string): string {
    if s != "" && s[|s| - 1] == '\r' then StripBlanks(s[..|s| - 1]) + "\r" else StripBlanks(s)
  }

  function EndOfLine(raw: string): string {
    if raw != "" && raw[|raw| - 1] == '\r' then "\r" else ""
  }

  /** `s.slice(from, -back)`. */
  function Middle(s: string, from: nat, back: nat): string {
    if from + back <= |s| then s[from..|s| - back] else ""
  }

  predicate IsArrayHeader(trimmed: string) {
    StartsWith(trimmed, "[[")
  }

  function HeaderName(trimmed: string): string {
    if IsArrayHeader(trimmed) then Trim(Middle(trimmed, 2, 2)) else Trim(Middle(trimmed, 1, 1))
  }

  function NormaliseHeader(trimmed: string): string {
    if IsArrayHeader(trimmed) then "[[" + HeaderName(trimmed) + "]]" else "[" + HeaderName(trimmed) + "]"
  }

  predicate IsBareChar(c: char) {
    'A' <= c <= 'Z' || 'a' <= c <= 'z' || '0' <= c <= '9' || c == '_' || c == '-'
  }

  predicate IsBare(s: string) {
    s != "" && forall c | c in s :: IsBareChar(c)
  }

  /** The content of a text that is one basic string without escapes. */
  function PlainQuoted(s: string): Option<string> {
    if |s| >= 2 && s[0] == '"' && s[|s| - 1] == '"' && '"' !in s[1..|s| - 1] && '\\' !in s[1..|s| - 1]
    then Some(s[1..|s| - 1]) else None
  }

  /** A key without its quotes, where it does not need them. */
  function Unquoted(normalised: string): string {
    match PlainQuoted(normalised)
    case Some(content) => if IsBare(content) then content else normalised
    case None => normalised
  }

  function NormaliseKey(raw: string): string {
    Unquoted(NormalizeQuotes(Trim(raw)))
  }

  function ScanLine(line: string, depth: nat, multiline: Multiline): Walked {
    Walk(line, 0, FRESH.(depth := depth, multiline := multiline))
  }

  /** The text of the first line's value, as it is handed to the quote rewriter. */
  function ValueText(raw: string, eq: nat, comment: int, open: bool): string
    requires eq < |raw| && comment < |raw| && (comment >= 0 ==> eq < comment)
  {
    var tail := if comment >= 0 then raw[eq + 1..comment] else raw[eq + 1..];
    if open then TrimStart(tail) else RstripWs(TrimStart(tail))
  }

  function NormaliseFirstLine(raw: string, eq: nat, comment: int, open: bool): string
    requires eq < |raw| && comment < |raw| && (comment >= 0 ==> eq < comment)
  {
    NormaliseKey(raw[..eq]) + " = " + NormalizeQuotes(ValueText(raw, eq, comment, open))
    + if comment >= 0 then " " + RstripWs(raw[comment..]) else ""
  }

  function NormaliseContinuation(line: string): string {
    NormalizeQuotes(RstripWs(line))
  }

  lemma ScanColumns(raw: string)
    ensures var s := ScanLine(raw, 0, Outside);
      && -1 <= s.eq < |raw| && -1 <= s.comment < |raw|
      && (s.eq >= 0 && s.comment >= 0 ==> s.eq < s.comment)
  {
    hide StepAt;
    EqStable(raw, 0, FRESH);
    if ScanLine(raw, 0, Outside).eq >= 0 {
      var k := ScanLine(raw, 0, Outside).eq;
      CutAtEq(raw, 0, FRESH);
      WalkAppend(raw[..k], raw[k..], 0, FRESH);
      assert raw == raw[..k] + raw[k..];
      EqStable(raw[k..], k, FRESH);
      if ScanLine(raw, 0, Outside).comment >= 0 {
        CutAtComment(raw, 0, FRESH);
      }
    }
  }

  // ----- One key/value construct -----

  /** The rewritten continuation lines of a value that is still open. */
  function Continue(rest: seq<string>, depth: nat, multiline: Multiline): Option<seq<string>> {
    if depth == 0 && multiline == Outside then Some([])
    else if rest == [] then None
    else
      var after := ScanLine(rest[0], depth, multiline);
      var line := if multiline != Outside || after.multiline != Outside then rest[0] else NormaliseContinuation(rest[0]);
      match Continue(rest[1..], after.depth, after.multiline)
      case None => None
      case Some(lines) => Some([line] + lines)
  }

  function ConsumeKv(lines: seq<string>, line: nat): Result<Consumed, ScanError>
    requires lines != []
  {
    var raw := lines[0];
    var scan := ScanLine(raw, 0, Outside);
    ScanColumns(raw);
    if scan.eq < 0 then Err(Unsupported(line))
    else
      match Continue(lines[1..], scan.depth, scan.multiline)
      case None => Err(Unterminated(line))
      case Some(rest) =>
        Ok(Consumed(NormaliseKey(raw[..scan.eq]),
                    [NormaliseFirstLine(raw, scan.eq, scan.comment, scan.multiline != Outside)] + rest))
  }

  lemma {:induction false} ContinueLength(rest: seq<string>, depth: nat, multiline: Multiline)
    ensures Continue(rest, depth, multiline).Some? ==> |Continue(rest, depth, multiline).value| <= |rest|
  {
    if !(depth == 0 && multiline == Outside) && rest != [] {
      var after := ScanLine(rest[0], depth, multiline);
      ContinueLength(rest[1..], after.depth, after.multiline);
    }
  }

  // ----- The document -----

  predicate IsFiller(raw: string) {
    Trim(raw) == "" || Trim(raw)[0] == '#'
  }

  predicate IsBlankLine(raw: string) {
    Trim(raw) == ""
  }

  predicate AnyBlank(lines: seq<string>) {
    exists p | p in lines :: IsBlankLine(p)
  }

  function AddKv(blocks: seq<Block>, kv: Kv): seq<Block>
    requires blocks != []
  {
    var last := blocks[|blocks| - 1];
    blocks[..|blocks| - 1] + [last.(kvs := last.kvs + [kv])]
  }

  const ROOT := Block("", None, [])

  /** Scans the rest `lines`, the first of which is line number `line`. */
  function ScanFrom(lines: seq<string>, line: nat, blocks: seq<Block>, pending: seq<string>, order: nat)
    : Result<Document, ScanError>
    requires blocks != []
    decreases |lines|
  {
    if lines == [] then Ok(Document(blocks, pending))
    else
      var raw := lines[0];
      if IsFiller(raw) then ScanFrom(lines[1..], line + 1, blocks, pending + [raw], order)
      else if ScanLine(raw, 0, Outside).eq < 0 then
        if Trim(raw)[0] != '[' then Err(Unsupported(line))
        else
          var header := Header(NormaliseHeader(Trim(raw)) + EndOfLine(raw), pending);
          ScanFrom(lines[1..], line + 1, blocks + [Block(HeaderName(Trim(raw)), Some(header), [])], [], order)
      else
        match ConsumeKv(lines, line)
        case Err(e) => Err(e)
        case Ok(consumed) =>
          ConsumeLength(lines, line);
          var kv := Kv(consumed.key, consumed.lines, pending, AnyBlank(pending), order);
          ScanFrom(lines[|consumed.lines|..], line + |consumed.lines|, AddKv(blocks, kv), [], order + 1)
  }

  lemma {:induction false} ConsumeLength(lines: seq<string>, line: nat)
    requires lines != [] && ConsumeKv(lines, line).Ok?
    ensures 0 < |ConsumeKv(lines, line).value.lines| <= |lines|
  {
    hide Walk, NormaliseFirstLine;
    var scan := ScanLine(lines[0], 0, Outside);
    ContinueLength(lines[1..], scan.depth, scan.multiline);
  }

  // One turn of the scan, construct by construct.

  lemma {:induction false} FillerStep(lines: seq<string>, line: nat, blocks: seq<Block>, pending: seq<string>, order: nat)
    requires blocks != [] && lines != [] && IsFiller(lines[0])
    ensures ScanFrom(lines, line, blocks, pending, order)
         == ScanFrom(lines[1..], line + 1, blocks, pending + [lines[0]], order)
  {
    hide IsFiller, ConsumeKv, Walk;
  }

  lemma {:induction false} KvStep(lines: seq<string>, n: nat, line: nat, blocks: seq<Block>, pending: seq<string>, order: nat, kv: Kv)
    requires blocks != [] && lines != [] && !IsFiller(lines[0]) && ScanLine(lines[0], 0, Outside).eq >= 0
    requires ConsumeKv(lines, line) == Ok(Consumed(kv.key, kv.lines)) && n == |kv.lines| <= |lines|
    requires kv.leading == pending && kv.order == order
    requires kv.spaced == AnyBlank(pending)
    ensures ScanFrom(lines, line, blocks, pending, order)
         == ScanFrom(lines[n..], line + n, AddKv(blocks, kv), [], order + 1)
  {
    hide IsFiller, ConsumeKv, ScanLine, AnyBlank, AddKv, Trim, HeaderName, NormaliseHeader, EndOfLine;
    assert kv == Kv(kv.key, kv.lines, pending, AnyBlank(pending), order);
  }

  lemma {:induction false} HeaderStep(lines: seq<string>, line: nat, blocks: seq<Block>, pending: seq<string>, order: nat)
    requires blocks != [] && lines != [] && !IsFiller(lines[0]) && ScanLine(lines[0], 0, Outside).eq < 0
    requires Trim(lines[0])[0] == '['
    ensures var t := Trim(lines[0]);
      ScanFrom(lines, line, blocks, pending, order)
        == ScanFrom(lines[1..], line + 1,
                    blocks + [Block(HeaderName(t), Some(Header(NormaliseHeader(t) + EndOfLine(lines[0]), pending)), [])],
                    [], order)
  {
    hide ConsumeKv, Walk, HeaderName, NormaliseHeader, Trim;
  }

  lemma ScanEnd(line: nat, blocks: seq<Block>, pending: seq<string>, order: nat)
    requires blocks != []
    ensures ScanFrom([], line, blocks, pending, order) == Ok(Document(blocks, pending))
  {
  }

  /** A scan that succeeds has read a construct wherever there is one. */
  lemma {:induction false} ConstructRead(lines: seq<string>, line: nat, blocks: seq<Block>, pending: seq<string>, order: nat)
    requires blocks != [] && lines != [] && !IsFiller(lines[0])
    requires ScanFrom(lines, line, blocks, pending, order).Ok?
    ensures if ScanLine(lines[0], 0, Outside).eq < 0 then Trim(lines[0])[0] == '[' else ConsumeKv(lines, line).Ok?
  {
    hide Walk, ConsumeKv, Trim, HeaderName, NormaliseHeader;
  }

  function ScanDocument(source: string): Result<Document, ScanError> {
    ScanFrom(Split(source, '\n'), 1, [ROOT], [], 0)
  }

  /** The line ending of blank lines the formatter synthesises, read off the first line. */
  function Eol(source: string): string {
    EndOfLine(Split(source, '\n')[0])
  }

  // ----- SEP-1 order -----

  const TABLE_ORDER: seq<string> := ["DOCUMENTATION", "PRINCIPALS", "CURRENCIES", "VALIDATORS"]

  const GLOBAL_FIELDS: seq<string> := [
    "VERSION", "NETWORK_PASSPHRASE", "FEDERATION_SERVER", "AUTH_SERVER", "TRANSFER_SERVER",
    "TRANSFER_SERVER_SEP0024", "KYC_SERVER", "WEB_AUTH_ENDPOINT", "WEB_AUTH_FOR_CONTRACTS_ENDPOINT",
    "WEB_AUTH_CONTRACT_ID", "SIGNING_KEY", "HORIZON_URL", "ACCOUNTS", "URI_REQUEST_SIGNING_KEY",
    "DIRECT_PAYMENT_SERVER", "ANCHOR_QUOTE_SERVER"
  ]

  const DOCUMENTATION_FIELDS: seq<string> := [
    "ORG_NAME", "ORG_DBA", "ORG_URL", "ORG_LOGO", "ORG_DESCRIPTION", "ORG_PHYSICAL_ADDRESS",
    "ORG_PHYSICAL_ADDRESS_ATTESTATION", "ORG_PHONE_NUMBER", "ORG_PHONE_NUMBER_ATTESTATION", "ORG_KEYBASE",
    "ORG_TWITTER", "ORG_GITHUB", "ORG_TELEGRAM", "ORG_OFFICIAL_EMAIL", "ORG_SUPPORT_EMAIL",
    "ORG_LICENSING_AUTHORITY", "ORG_LICENSE_TYPE", "ORG_LICENSE_NUMBER", "ORG_TERMS_OF_SERVICE",
    "ORG_PRIVACY_POLICY"
  ]

  const PRINCIPAL_FIELDS: seq<string> := [
    "name", "email", "keybase", "telegram", "twitter", "github", "id_photo_hash", "verification_photo_hash"
  ]

  const CURRENCY_FIELDS: seq<string> := [
    "code", "issuer", "contract", "code_template", "status", "display_decimals", "name", "desc", "conditions",
    "image", "fixed_number", "max_number", "is_unlimited", "is_asset_anchored", "anchor_asset_type",
    "anchor_asset", "attestation_of_reserve", "redemption_instructions", "collateral_addresses",
    "collateral_address_messages", "collateral_address_signatures", "regulated", "approval_server",
    "approval_criteria", "toml"
  ]

  const VALIDATOR_FIELDS: seq<string> := ["ALIAS", "DISPLAY_NAME", "PUBLIC_KEY", "HOST", "HISTORY"]

  /** Position of `x`, or the length of the list when it does not occur. */
  function IndexIn(list: seq<string>, x: string): nat {
    if list == [] || list[0] == x then 0 else 1 + IndexIn(list[1..], x)
  }

  function SectionRank(name: string): int {
    if name == "" then -1 else IndexIn(TABLE_ORDER, Split(name, '.')[0])
  }

  function FieldTable(section: string): seq<string> {
    match Split(section, '.')[0]
    case "DOCUMENTATION" => DOCUMENTATION_FIELDS
    case "PRINCIPALS" => PRINCIPAL_FIELDS
    case "CURRENCIES" => CURRENCY_FIELDS
    case "VALIDATORS" => VALIDATOR_FIELDS
    case _ => if section == "" then GLOBAL_FIELDS else []
  }

  /** The leading field name of a dotted or quoted key. */
  function FirstSegment(key: string): string {
    match PlainQuoted(Trim(key))
    case Some(whole) => whole
    case None =>
      var head := Trim(Split(key, '.')[0]);
      match PlainQuoted(head)
      case Some(quoted) => quoted
      case None => head
  }

  /** The length of the table stands for the code's positive infinity. */
  function FieldRank(table: seq<string>, key: string): int {
    IndexIn(table, FirstSegment(key))
  }

  function OrderBlocks(blocks: seq<Block>): seq<Block> {
    Sorting.StableSort(blocks, (b: Block) => SectionRank(b.name))
  }

  function OrderKvs(block: Block): seq<Kv> {
    var table := FieldTable(block.name);
    Sorting.StableSort(block.kvs, (kv: Kv) => FieldRank(table, kv.key))
  }

  // ----- Rendering -----

  /** The lines `pushLeading` writes. */
  function Lead(leading: seq<string>): seq<string> {
    if leading == [] then []
    else (if IsBlankLine(RstripWs(leading[0])) then [] else [RstripWs(leading[0])]) + Lead(leading[1..])
  }

  /** `bare` says that nothing has been written yet. */
  function KvLines(kv: Kv, bare: bool, eol: string): seq<string> {
    (if kv.spaced && !bare then [eol] else []) + Lead(kv.leading) + kv.lines
  }

  function KvsLines(kvs: seq<Kv>, bare: bool, eol: string): seq<string> {
    if kvs == [] then []
    else
      var lines := KvLines(kvs[0], bare, eol);
      lines + KvsLines(kvs[1..], bare && lines == [], eol)
  }

  function HeaderLines(header: Option<Header>, bare: bool, eol: string): seq<string> {
    match header
    case None => []
    case Some(h) => (if bare then [] else [eol]) + Lead(h.leading) + [h.line]
  }

  function BlockLines(block: Block, bare: bool, eol: string): seq<string> {
    HeaderLines(block.header, bare, eol) + KvsLines(OrderKvs(block), bare && block.header.None?, eol)
  }

  function BlocksLines(blocks: seq<Block>, bare: bool, eol: string): seq<string> {
    if blocks == [] then []
    else
      var lines := BlockLines(blocks[0], bare, eol);
      lines + BlocksLines(blocks[1..], bare && lines == [], eol)
  }

  function TrailerLines(trailer: seq<string>): seq<string> {
    if trailer == [] then [] else [RstripWs(trailer[0])] + TrailerLines(trailer[1..])
  }

  function RenderLines(blocks: seq<Block>, trailer: seq<string>, eol: string): seq<string> {
    BlocksLines(blocks, true, eol) + TrailerLines(trailer)
  }

  function Render(blocks: seq<Block>, trailer: seq<string>, eol: string): string {
    Join(RenderLines(blocks, trailer, eol), '\n')
  }

  // ----- formatToml -----

  const BOM: char := '\U{FEFF}'

  function Body(source: string): string {
    if source != "" && source[0] == BOM then source[1..] else source
  }

  /** The layout rewrite on its own, before the guards of `formatToml` look at it. */
  function Layout(source: string): Result<string, ScanError> {
    match ScanDocument(Body(source))
    case Err(e) => Err(e)
    case Ok(doc) =>
      var body := Render(OrderBlocks(doc.blocks), doc.trailer, Eol(Body(source)));
      Ok(if source != "" && source[0] == BOM then [BOM] + body else body)
  }

  datatype FormatError = ParseFailed | ScanFailed(error: ScanError) | EmitsInvalid | ChangesMeaning

  datatype Formatted = Formatted(output: string, changed: bool)

  /**
   `formatToml`, over the parser and the document comparison it is given. The
   output still carries the byte order mark; the second parse does not see it.
   */
  function FormatToml<D>(parse: string -> Option<D>, deepEqual: (D, D) -> bool, source: string)
    : Result<Formatted, FormatError>
  {
    match parse(Body(source))
    case None => Err(ParseFailed)
    case Some(before) =>
      match Layout(source)
      case Err(e) => Err(ScanFailed(e))
      case Ok(output) =>
        if output == source then Ok(Formatted(output, false))
        else
          var hasBom := source != "" && source[0] == BOM;
          match parse(if hasBom then output[1..] else output)
          case None => Err(EmitsInvalid)
          case Some(after) =>
            if deepEqual(before, after) then Ok(Formatted(output, true)) else Err(ChangesMeaning)
  }
}
