/**
 The share links of `src/browser/share-state.ts`: what a link carries, how one is
 read back, and which link the fallback ladder settles on. JSON, the compressor and
 the digest are functions the code takes from its engine, kept as parameters.
 */
module ShareState {
  import opened JsText
  import opened Wrappers
  import Base64Url
  import Int32

  type Bytes = seq<Int32.Byte>
  type Rules = map<string, string>

  /** A playground session. An unset `strict` is the same as false. */
  datatype State = State(source: Option<string>, domain: Option<string>, rules: Option<Rules>, strict: bool)

  /** What `JSON.parse` makes of a payload, as far as the type tests of the decoder look into it. */
  datatype Parsed = NotJson | NullValue | Fields(state: State)

  /** What the code takes from its engine. */
  datatype Engine = Engine(
    stringify: State -> Bytes,
    parse: Bytes -> Parsed,
    compress: Bytes -> (Bytes, bool),
    decompress: (Bytes, bool) -> Option<Bytes>,
    digest: Bytes -> Option<string>)

  /** Reading undoes writing, and a checksum can stand between dots without being taken for an absent one. */
  ghost predicate Sound(engine: Engine) {
    && (forall s :: engine.stringify(s) != [] && engine.parse(engine.stringify(s)) == Fields(s))
    && (forall p :: engine.decompress(engine.compress(p).0, engine.compress(p).1) == Some(p))
    && (forall p :: engine.digest(p).Some? ==> Legible(engine.digest(p).value))
  }

  predicate Legible(checksum: string) {
    checksum != "0" && '.' !in checksum && '&' !in checksum
  }

  datatype Mode = Source | Domain

  datatype Degraded = Whole | FlagsDropped | DomainOnly | OverBudget

  datatype Link = Link(hash: string, url: string, fits: bool, mode: Mode, degraded: Degraded)

  datatype Decode =
    | Absent
    | Restored(state: State, verified: bool)
    | Invalid(reason: string)
    | Thrown

  const MARKER := "state="

  // ----- Encoding -----

  function ModeOf(state: State): Mode {
    if state.source.None? && state.domain.Some? then Domain else Source
  }

  function FlagsOf(state: State): State {
    State(None, None, if state.rules.Some? && state.rules.value != map[] then state.rules else None, state.strict)
  }

  /** What a link carries of a state. */
  function Carried(state: State): State {
    if ModeOf(state) == Domain then FlagsOf(state).(domain := state.domain)
    else FlagsOf(state).(source := Some(if state.source.Some? then state.source.value else ""))
  }

  function Pack(engine: Engine, state: State): string {
    var plain := engine.stringify(Carried(state));
    var payload := engine.compress(plain);
    var checksum := engine.digest(plain);
    "#" + MARKER
    + [if ModeOf(state) == Domain then 'u' else 's', if payload.1 then 'd' else 'p']
    + "." + (if checksum.Some? then checksum.value else "0")
    + "." + Base64Url.Letters(Base64Url.Sextets(payload.0))
  }

  function LinkFor(engine: Engine, pageUrl: string, budget: nat, state: State, degraded: Degraded): Link {
    var hash := Pack(engine, state);
    var url := Split(pageUrl, '#')[0] + hash;
    Link(hash, url, |url| <= budget, ModeOf(state), degraded)
  }

  /** The states tried, from the one that carries most to the one that carries least. */
  function Ladder(state: State): (rungs: seq<(State, Degraded)>)
    ensures rungs != [] && rungs[0] == (state, Whole)
  {
    var domainOnly := State(None, state.domain, None, false);
    var flags := FlagsOf(state);
    [(state, Whole)]
    + (if ModeOf(state) == Domain then []
       else
         [(State(state.source, None, None, false), FlagsDropped)]
         + (if state.domain.None? then []
            else [(flags.(domain := state.domain), DomainOnly), (domainOnly, DomainOnly)]))
  }

  /** The link of rung `k`. */
  function RungLink(engine: Engine, pageUrl: string, budget: nat, state: State, k: nat): Link
    requires k < |Ladder(state)|
  {
    LinkFor(engine, pageUrl, budget, Ladder(state)[k].0, Ladder(state)[k].1)
  }

  /** Rung `k` is the first one whose link fits. */
  ghost predicate FirstFits(engine: Engine, pageUrl: string, budget: nat, state: State, k: nat) {
    && k < |Ladder(state)| && RungLink(engine, pageUrl, budget, state, k).fits
    && forall i | 0 <= i < k :: !RungLink(engine, pageUrl, budget, state, i).fits
  }

  /** No rung fits, and rung `k` is the first one whose link is longest. */
  ghost predicate FirstLongest(engine: Engine, pageUrl: string, budget: nat, state: State, k: nat) {
    && k < |Ladder(state)|
    && (forall i | 0 <= i < |Ladder(state)| :: !RungLink(engine, pageUrl, budget, state, i).fits)
    && (forall i | 0 <= i < |Ladder(state)| ::
          |RungLink(engine, pageUrl, budget, state, i).url| <= |RungLink(engine, pageUrl, budget, state, k).url|)
    && (forall i | 0 <= i < k ::
          |RungLink(engine, pageUrl, budget, state, i).url| < |RungLink(engine, pageUrl, budget, state, k).url|)
  }

  /** The first link that fits; if none does, the first of the longest, marked over budget. */
  method EncodeShareLink(engine: Engine, pageUrl: string, budget: nat, state: State) returns (link: Link)
    ensures
      || (exists k :: FirstFits(engine, pageUrl, budget, state, k) && link == RungLink(engine, pageUrl, budget, state, k))
      || (exists k :: FirstLongest(engine, pageUrl, budget, state, k)
                      && link == RungLink(engine, pageUrl, budget, state, k).(degraded := OverBudget))
  {
    hide LinkFor, Ladder;
    var ladder := Ladder(state);
    var links := [];
    for k := 0 to |ladder|
      invariant |links| == k
      invariant forall i | 0 <= i < k :: links[i] == RungLink(engine, pageUrl, budget, state, i) && !links[i].fits
    {
      link := LinkFor(engine, pageUrl, budget, ladder[k].0, ladder[k].1);
      if link.fits {
        assert FirstFits(engine, pageUrl, budget, state, k);
        return;
      }
      links := links + [link];
    }
    var widest := 0;
    for i := 1 to |links|
      invariant widest < |links| && forall j | 0 <= j < i :: |links[j].url| <= |links[widest].url|
      invariant forall j | 0 <= j < widest :: |links[j].url| < |links[widest].url|
    {
      if |links[i].url| > |links[widest].url| {
        widest := i;
      }
    }
    assert FirstLongest(engine, pageUrl, budget, state, widest);
    link := links[widest].(fits := false, degraded := OverBudget);
  }

  /**
   A state over budget is returned in full if and only if no lower rung's url is longer
   than the full one.
   */
  lemma FullStateReturned(engine: Engine, pageUrl: string, budget: nat, state: State, k: nat)
    requires FirstLongest(engine, pageUrl, budget, state, k)
    ensures RungLink(engine, pageUrl, budget, state, k).(degraded := OverBudget)
            == RungLink(engine, pageUrl, budget, state, 0).(degraded := OverBudget) <==>
      forall i | 0 < i < |Ladder(state)| ::
        |RungLink(engine, pageUrl, budget, state, i).url| <= |RungLink(engine, pageUrl, budget, state, 0).url|
  {
    hide RungLink, Ladder;
    if k > 0 {
      assert |RungLink(engine, pageUrl, budget, state, 0).url| < |RungLink(engine, pageUrl, budget, state, k).url|;
    }
  }

  /** An engine that writes a session as its text or its domain, one byte for each character. */
  function PlainEngine(): Engine {
    Engine(
      (s: State) => BytesOf(if s.source.Some? then s.source.value else if s.domain.Some? then s.domain.value else ""),
      (b: Bytes) => NotJson,
      (b: Bytes) => (b, false),
      (b: Bytes, deflated: bool) => Some(b),
      (b: Bytes) => None)
  }

  function BytesOf(s: string): Bytes {
    seq(|s|, i requires 0 <= i < |s| => s[i] as int % 256)
  }

  /** A short text with a long domain: over budget, the link that comes back has lost the text. */
  lemma OverBudgetLosesText()
    ensures var engine, state := PlainEngine(), State(Some("A"), Some("example.org"), None, false);
      && FirstLongest(engine, "", 0, state, 2)
      && RungLink(engine, "", 0, state, 2).mode == Domain && RungLink(engine, "", 0, state, 0).mode == Source
      && Carried(Ladder(state)[2].0).source.None?
  {
    hide Base64Url.Letters, Base64Url.Sextets, Split;
    var engine, state := PlainEngine(), State(Some("A"), Some("example.org"), None, false);
    assert Split("", '#') == [""] by { SplitOfHead("", '#', ""); }
    forall k | 0 <= k < 4
      ensures |RungLink(engine, "", 0, state, k).url| == if k < 2 then 14 else 27
    {
      Base64Url.DecodeOfEncode(engine.stringify(Carried(Ladder(state)[k].0)));
    }
  }

  // ----- Decoding -----

  /** From the payload's JSON to the state it holds. */
  function Restore(domainMode: bool, parsed: Parsed, verified: bool): Decode {
    match parsed
    case NotJson => Invalid("payload is not JSON")
    case NullValue => Thrown
    case Fields(envelope) =>
      if domainMode && envelope.domain.None? then Invalid("domain link without a domain")
      else if !domainMode && envelope.source.None? then Invalid("snippet link without a source")
      else Restored(State(if domainMode then None else envelope.source, envelope.domain, envelope.rules, envelope.strict), verified)
  }

  function DecodePayload(engine: Engine, domainMode: bool, deflated: bool, checksum: string, payload: string): Decode {
    match Base64Url.Decoded(payload)
    case None => Invalid("payload is not base64url")
    case Some(bytes) =>
      match engine.decompress(bytes, deflated)
      case None => Invalid("could not inflate")
      case Some(plain) =>
        if plain == [] then Invalid("payload inflated to nothing")
        else
          var expected := engine.digest(plain);
          if checksum != "0" && expected.Some? && checksum != expected.value then Invalid("checksum mismatch")
          else Restore(domainMode, engine.parse(plain), checksum != "0")
  }

  function DecodeValue(engine: Engine, value: string): Decode {
    var parts := Split(value, '.');
    if |parts| != 3 then Invalid("expected <mode><codec>.<checksum>.<payload>")
    else
      var head := parts[0];
      if |head| != 2 || head[0] !in "su" || head[1] !in "dp" then Invalid("unknown mode or codec")
      else DecodePayload(engine, head[0] == 'u', head[1] == 'd', parts[1], parts[2])
  }

  function DecodeShareLink(engine: Engine, fragment: string): Decode {
    var raw := if StartsWith(fragment, "#") then fragment[1..] else fragment;
    match Find(raw, MARKER, 0)
    case None => Absent
    case Some(start) =>
      var value := Split(raw[start + |MARKER|..], '&')[0];
      if value == "" then Absent else DecodeValue(engine, value)
  }

  // ----- Main results -----

  lemma {:induction false} LettersAreLegible(sextets: seq<Base64Url.Sextet>)
    ensures '.' !in Base64Url.Letters(sextets) && '&' !in Base64Url.Letters(sextets)
  {
    if sextets != [] {
      LettersAreLegible(sextets[1..]);
    }
  }

  lemma ReadBack(head: string, checksum: string, payload: string)
    requires '.' !in head && '.' !in checksum && '.' !in payload
    ensures Split(head + "." + checksum + "." + payload, '.') == [head, checksum, payload]
  {
    assert head + "." + checksum + "." + payload == head + ['.'] + (checksum + ['.'] + payload);
    SplitOfHead(head, '.', checksum + ['.'] + payload);
    SplitOfHead(checksum, '.', payload);
    SplitOfHead(payload, '.', "");
  }

  lemma ValueOfFragment(engine: Engine, value: string)
    requires value != "" && '&' !in value
    ensures DecodeShareLink(engine, "#" + MARKER + value) == DecodeValue(engine, value)
  {
    hide DecodeValue;
    var fragment := "#" + MARKER + value;
    assert fragment[..1] == "#" && fragment[1..] == MARKER + value;
    assert (MARKER + value)[0..|MARKER|] == MARKER;
    FindFirst(MARKER + value, MARKER, 0, 0);
    SplitOfHead(value, '&', "");
    assert (MARKER + value)[|MARKER|..] == value;
  }

  /**
   Decoding the fragment of any link gives the state it carries: no empty rules, no
   unset flags, and the domain only when there is no text. It is verified exactly
   when the engine had a digest.
   */
  lemma DecodeOfPack(engine: Engine, state: State)
    requires Sound(engine)
    ensures DecodeShareLink(engine, Pack(engine, state)) ==
      Restored(Carried(state), engine.digest(engine.stringify(Carried(state))).Some?)
  {
    hide Base64Url.Letters, Base64Url.Sextets, DecodeShareLink, DecodeValue, DecodePayload, Carried, ModeOf;
    var plain := engine.stringify(Carried(state));
    var payload := engine.compress(plain);
    var checksum := if engine.digest(plain).Some? then engine.digest(plain).value else "0";
    var text := Base64Url.Letters(Base64Url.Sextets(payload.0));
    LettersAreLegible(Base64Url.Sextets(payload.0));
    var head := [if ModeOf(state) == Domain then 'u' else 's', if payload.1 then 'd' else 'p'];
    var value := head + "." + checksum + "." + text;
    assert Pack(engine, state) == "#" + MARKER + value;
    assert value[0] == head[0];
    ValueOfFragment(engine, value);
    ValueIsRead(engine, ModeOf(state) == Domain, payload.1, checksum, text);
    PayloadIsRead(engine, state);
  }

  lemma ValueIsRead(engine: Engine, domainMode: bool, deflated: bool, checksum: string, text: string)
    requires '.' !in checksum && '.' !in text
    ensures DecodeValue(engine, [if domainMode then 'u' else 's', if deflated then 'd' else 'p'] + "." + checksum + "." + text)
         == DecodePayload(engine, domainMode, deflated, checksum, text)
  {
    hide DecodePayload, Split;
    var head := [if domainMode then 'u' else 's', if deflated then 'd' else 'p'];
    ReadBack(head, checksum, text);
    assert head[0] in "su" && head[1] in "dp" by {
      assert "su"[0] == 's' && "su"[1] == 'u' && "dp"[0] == 'd' && "dp"[1] == 'p';
    }
  }

  lemma PayloadIsRead(engine: Engine, state: State)
    requires Sound(engine)
    ensures var plain := engine.stringify(Carried(state));
      var payload, checksum := engine.compress(plain), engine.digest(plain);
      DecodePayload(engine, ModeOf(state) == Domain, payload.1, if checksum.Some? then checksum.value else "0",
                    Base64Url.Letters(Base64Url.Sextets(payload.0)))
        == Restored(Carried(state), checksum.Some?)
  {
    hide Base64Url.Letters, Base64Url.Sextets, Base64Url.Decoded;
    Base64Url.DecodeOfEncode(engine.compress(engine.stringify(Carried(state))).0);
  }

  // ----- What `verified` means -----

  /** A payload was compared with its checksum: there was one, and a digest to compare it with. */
  predicate Compared(engine: Engine, checksum: string, plain: Bytes) {
    checksum != "0" && engine.digest(plain).Some? && engine.digest(plain).value == checksum
  }

  /**
   A restored link is called verified exactly when it has a checksum. The claim that its
   payload was compared is true exactly when it has none or the reader has a digest.
   */
  lemma VerifiedMeansChecksum(engine: Engine, fragment: string, value: string, domainMode: bool, deflated: bool,
                              checksum: string, payload: string, plain: Bytes)
    requires Carries(fragment, value) && Shaped(value, domainMode, deflated, checksum, payload)
    requires Unpacks(engine, deflated, checksum, payload, plain) && DecodeShareLink(engine, fragment).Restored?
    ensures var verified := DecodeShareLink(engine, fragment).verified;
      && (verified <==> checksum != "0")
      && ((verified ==> Compared(engine, checksum, plain)) <==> checksum == "0" || engine.digest(plain).Some?)
  {
    hide DecodeValue, Base64Url.Decoded, Carries, Shaped;
    CarriedValue(engine, fragment, value);
    ShapedIsRead(engine, value, domainMode, deflated, checksum, payload);
  }

  /** The same engine, in a page without a digest. */
  function WithoutDigest(engine: Engine): Engine {
    engine.(digest := (b: Bytes) => None)
  }

  /** A link written with a digest and read without one is reported as verified, although nothing was compared. */
  lemma VerifiedUnchecked(engine: Engine, state: State)
    requires Sound(engine) && engine.digest(engine.stringify(Carried(state))).Some?
    ensures DecodeShareLink(WithoutDigest(engine), Pack(engine, state)) == Restored(Carried(state), true)
  {
    hide Base64Url.Letters, Base64Url.Sextets, DecodeValue, DecodeShareLink, Carried, ModeOf, Base64Url.Decoded;
    var reader, plain := WithoutDigest(engine), engine.stringify(Carried(state));
    var payload, checksum := engine.compress(plain), engine.digest(plain).value;
    var text := Base64Url.Letters(Base64Url.Sextets(payload.0));
    LettersAreLegible(Base64Url.Sextets(payload.0));
    var head := [if ModeOf(state) == Domain then 'u' else 's', if payload.1 then 'd' else 'p'];
    var value := head + "." + checksum + "." + text;
    assert Pack(engine, state) == "#" + MARKER + value;
    assert value[0] == head[0];
    ValueOfFragment(reader, value);
    ValueIsRead(reader, ModeOf(state) == Domain, payload.1, checksum, text);
    Base64Url.DecodeOfEncode(payload.0);
    CarriedShape(state);
  }

  lemma CarriedShape(state: State)
    ensures var c := Carried(state);
      if ModeOf(state) == Domain then c.source.None? && c.domain.Some? else c.source.Some? && c.domain.None?
  {
  }

  /** `r` is `state` without an empty map of rules. */
  predicate SameFlags(r: State, state: State) {
    && r.strict == state.strict
    && r.rules == (if state.rules == Some(map[]) then None else state.rules)
  }

  /**
   Packing and reading gives back the domain of a state that has no text, and the text of any
   other, empty if it has none; its strictness; and its rules, if there are any.
   */
  lemma StateReadsBack(engine: Engine, state: State)
    requires Sound(engine)
    ensures var r := DecodeShareLink(engine, Pack(engine, state));
      && r.Restored? && SameFlags(r.state, state)
      && match (state.source, state.domain)
         case (Some(text), _) => r.state.source == Some(text) && r.state.domain == None
         case (None, Some(domain)) => r.state.source == None && r.state.domain == Some(domain)
         case (None, None) => r.state.source == Some("") && r.state.domain == None
  {
    hide DecodeShareLink, Pack;
    DecodeOfPack(engine, state);
  }

  /** The fragment: mode and codec, checksum and payload behind `#state=`. */
  lemma FragmentText(engine: Engine, state: State)
    ensures var plain := engine.stringify(Carried(state));
      var payload, checksum := engine.compress(plain), engine.digest(plain);
      Pack(engine, state) ==
        "#state=" + (if state.source.None? && state.domain.Some? then "u" else "s") + (if payload.1 then "d" else "p")
        + "." + (if checksum.Some? then checksum.value else "0") + "." + Base64Url.Letters(Base64Url.Sextets(payload.0))
  {
    hide Base64Url.Letters, Base64Url.Sextets, Carried;
  }

  /** The link: the page without its fragment, and the state's own. */
  lemma UrlOfLink(engine: Engine, page: string, fragment: string, budget: nat, state: State, degraded: Degraded)
    requires '#' !in page && (fragment == "" || fragment[0] == '#')
    ensures var link := LinkFor(engine, page + fragment, budget, state, degraded);
      && link.hash == Pack(engine, state) && link.url == page + link.hash && link.fits == (|link.url| <= budget)
      && link.degraded == degraded && (link.mode == Domain <==> state.source.None? && state.domain.Some?)
  {
    hide Pack, Split;
    if fragment == "" {
      SplitOfHead(page, '#', "");
      assert page + fragment == page;
    } else {
      SplitOfHead(page, '#', fragment[1..]);
      assert page + fragment == page + ['#'] + fragment[1..];
    }
  }

  /**
   What reading the link of each rung gives, from the one that carries most to the one that
   carries least. A state with only a domain has one rung; one without a domain has two.
   */
  lemma LinkReadsBack(engine: Engine, pageUrl: string, budget: nat, state: State, k: nat)
    requires Sound(engine) && k < |Ladder(state)|
    ensures |Ladder(state)| == if state.domain.None? then 2 else if state.source.None? then 1 else 4
    ensures var link := RungLink(engine, pageUrl, budget, state, k);
      var r := DecodeShareLink(engine, link.hash);
      && r.Restored? && link.degraded == [Whole, FlagsDropped, DomainOnly, DomainOnly][k]
      && (k == 0 && state.source.None? && state.domain.Some? ==>
            r.state.source == None && r.state.domain == state.domain && SameFlags(r.state, state))
      && (k <= 1 && !(state.source.None? && state.domain.Some?) ==>
            && r.state.source == Some(if state.source.Some? then state.source.value else "") && r.state.domain == None
            && if k == 0 then SameFlags(r.state, state) else r.state.rules == None && !r.state.strict)
      && (k >= 2 ==>
            && r.state.source == None && r.state.domain == state.domain
            && if k == 2 then SameFlags(r.state, state) else r.state.rules == None && !r.state.strict)
  {
    hide DecodeShareLink, Pack, Split;
    StateReadsBack(engine, Ladder(state)[k].0);
  }

  /** What any well-shaped link restores of the fields of its payload. */
  lemma PayloadRestored(engine: Engine, fragment: string, value: string, domainMode: bool, deflated: bool,
                        checksum: string, payload: string, plain: Bytes, fields: State)
    requires Carries(fragment, value) && Shaped(value, domainMode, deflated, checksum, payload)
    requires Unpacks(engine, deflated, checksum, payload, plain) && engine.parse(plain) == Fields(fields)
    ensures var r := DecodeShareLink(engine, fragment);
      && (r.Restored? <==> if domainMode then fields.domain.Some? else fields.source.Some?)
      && (r.Restored? ==>
            && r.state.source == (if domainMode then None else fields.source)
            && r.state.domain == fields.domain && r.state.rules == fields.rules && r.state.strict == fields.strict)
      && (!r.Restored? ==> r.Invalid?)
  {
    hide DecodeValue, Base64Url.Decoded, Carries, Shaped;
    CarriedValue(engine, fragment, value);
    ShapedIsRead(engine, value, domainMode, deflated, checksum, payload);
  }

  /** A link whose payload is the JSON value null makes the decoder throw, although it means to report every bad link. */
  lemma NullPayloadThrows(engine: Engine, plain: Bytes)
    requires engine.decompress(plain, false) == Some(plain) && plain != [] && engine.parse(plain) == NullValue
    ensures DecodeShareLink(engine, "#" + MARKER + "sp.0." + Base64Url.Letters(Base64Url.Sextets(plain))) == Thrown
  {
    hide Base64Url.Letters, Base64Url.Sextets, Base64Url.Decoded, DecodeShareLink, DecodeValue;
    var text := Base64Url.Letters(Base64Url.Sextets(plain));
    var value := "sp" + "." + "0" + "." + text;
    assert "#" + MARKER + "sp.0." + text == "#" + MARKER + value;
    LettersAreLegible(Base64Url.Sextets(plain));
    assert value[0] == 's' && "sp" == ['s', 'p'];
    ValueOfFragment(engine, value);
    ValueIsRead(engine, false, false, "0", text);
    Base64Url.DecodeOfEncode(plain);
  }

  /** A fragment carries a value: what stands behind its first marker, up to an `&` or the end. */
  ghost predicate Carries(fragment: string, value: string) {
    var raw := if StartsWith(fragment, "#") then fragment[1..] else fragment;
    var found := Find(raw, MARKER, 0);
    found.Some? && CutFrom(raw, found.value + |MARKER|, value)
  }

  ghost predicate CutFrom(raw: string, i: nat, value: string) {
    exists j: nat :: Cuts(raw, i, j, value)
  }

  /** `value` stands from `i` to `j`, holds no `&`, and one or the end of the text follows it. */
  predicate Cuts(raw: string, i: nat, j: nat, value: string) {
    i <= j <= |raw| && raw[i..j] == value && '&' !in value && (j < |raw| ==> raw[j] == '&')
  }

  /** A link's value: mode and codec, a checksum and a payload between dots. */
  predicate Shaped(value: string, domainMode: bool, deflated: bool, checksum: string, payload: string) {
    && value == [if domainMode then 'u' else 's', if deflated then 'd' else 'p'] + "." + checksum + "." + payload
    && '.' !in checksum && '.' !in payload
  }

  /** The payload reads as bytes that inflate to something, and the checksum does not speak against them. */
  predicate Unpacks(engine: Engine, deflated: bool, checksum: string, payload: string, plain: Bytes) {
    && Base64Url.Decoded(payload).Some?
    && engine.decompress(Base64Url.Decoded(payload).value, deflated) == Some(plain) && plain != []
    && (checksum == "0" || engine.digest(plain).None? || engine.digest(plain).value == checksum)
  }

  ghost predicate NullLink(engine: Engine, fragment: string, value: string, domainMode: bool, deflated: bool,
                           checksum: string, payload: string, plain: Bytes)
  {
    && Carries(fragment, value) && Shaped(value, domainMode, deflated, checksum, payload)
    && Unpacks(engine, deflated, checksum, payload, plain) && engine.parse(plain) == NullValue
  }

  lemma CutsIsSplit(raw: string, i: nat, j: nat, value: string)
    requires Cuts(raw, i, j, value)
    ensures Split(raw[i..], '&')[0] == value
  {
    assert raw[i..j] + raw[j..] == raw[i..];
    SplitOfHead(value, '&', "");
    if j < |raw| {
      SplitOfHead(value, '&', raw[j + 1..]);
      assert raw[i..] == value + ['&'] + raw[j + 1..];
    } else {
      assert raw[i..] == value;
    }
  }

  lemma SplitIsCuts(raw: string, i: nat) returns (j: nat)
    requires i <= |raw|
    ensures Cuts(raw, i, j, Split(raw[i..], '&')[0])
  {
    hide Split;
    var s := raw[i..];
    var parts := Split(s, '&');
    SplitParts(s, '&');
    assert parts[0] in parts;
    j := i + |parts[0]|;
    assert parts[0] <= s;
    assert raw[i..j] == s[..|parts[0]|];
    if |parts| > 1 {
      assert s[|parts[0]|] == '&';
    }
  }

  /** The fragment's value as the decoder cuts it. */
  lemma CarriedValue(engine: Engine, fragment: string, value: string)
    requires Carries(fragment, value)
    ensures DecodeShareLink(engine, fragment) == if value == "" then Absent else DecodeValue(engine, value)
  {
    hide DecodeValue, Split, Find, Cuts;
    var raw := if StartsWith(fragment, "#") then fragment[1..] else fragment;
    var i := Find(raw, MARKER, 0).value;
    var j: nat :| Cuts(raw, i + |MARKER|, j, value);
    CutsIsSplit(raw, i + |MARKER|, j, value);
    assert At(raw, MARKER, i);
  }

  lemma ValueIsShaped(engine: Engine, value: string)
    requires DecodeValue(engine, value) == Thrown
    ensures exists domainMode, deflated, checksum, payload ::
      Shaped(value, domainMode, deflated, checksum, payload) &&
      DecodePayload(engine, domainMode, deflated, checksum, payload) == Thrown
  {
    hide Split, DecodePayload;
    var parts := Split(value, '.');
    SplitParts(value, '.');
    var head, checksum, payload := parts[0], parts[1], parts[2];
    assert checksum in parts && payload in parts;
    assert parts[1..][1..] == [payload] && parts[1..][0] == checksum;
    assert Join(parts[1..][1..], '.') == payload;
    assert Join(parts[1..], '.') == checksum + ['.'] + payload;
    assert value == head + ['.'] + (checksum + ['.'] + payload);
    assert head == [head[0], head[1]];
    assert Shaped(value, head[0] == 'u', head[1] == 'd', checksum, payload);
  }

  lemma PayloadThrows(engine: Engine, domainMode: bool, deflated: bool, checksum: string, payload: string)
    ensures DecodePayload(engine, domainMode, deflated, checksum, payload) == Thrown <==>
      exists plain :: Unpacks(engine, deflated, checksum, payload, plain) && engine.parse(plain) == NullValue
  {
    hide Base64Url.Decoded;
    if DecodePayload(engine, domainMode, deflated, checksum, payload) == Thrown {
      var plain := engine.decompress(Base64Url.Decoded(payload).value, deflated).value;
      assert Unpacks(engine, deflated, checksum, payload, plain);
    }
  }

  /**
   Exactly when the decoder throws, for every engine and every text: on a well-shaped link
   whose payload is base64url, inflates to bytes that pass the checksum, and reads as null.
   */
  lemma ThrowsOnNull(engine: Engine, fragment: string)
    ensures DecodeShareLink(engine, fragment) == Thrown <==>
      exists value, domainMode, deflated, checksum, payload, plain ::
        NullLink(engine, fragment, value, domainMode, deflated, checksum, payload, plain)
  {
    hide DecodeValue, DecodePayload, Split, Find, Carries, Shaped, Unpacks;
    if DecodeShareLink(engine, fragment) == Thrown {
      var value := ValueCarried(engine, fragment);
      CarriedValue(engine, fragment, value);
      ValueIsShaped(engine, value);
      var domainMode, deflated, checksum, payload :|
        Shaped(value, domainMode, deflated, checksum, payload) &&
        DecodePayload(engine, domainMode, deflated, checksum, payload) == Thrown;
      PayloadThrows(engine, domainMode, deflated, checksum, payload);
      var plain :| Unpacks(engine, deflated, checksum, payload, plain) && engine.parse(plain) == NullValue;
      assert NullLink(engine, fragment, value, domainMode, deflated, checksum, payload, plain);
    }
    if value, domainMode, deflated, checksum, payload, plain :|
      NullLink(engine, fragment, value, domainMode, deflated, checksum, payload, plain)
    {
      CarriedValue(engine, fragment, value);
      PayloadThrows(engine, domainMode, deflated, checksum, payload);
      ShapedIsRead(engine, value, domainMode, deflated, checksum, payload);
    }
  }

  lemma ShapedIsRead(engine: Engine, value: string, domainMode: bool, deflated: bool, checksum: string, payload: string)
    requires Shaped(value, domainMode, deflated, checksum, payload)
    ensures value != "" && DecodeValue(engine, value) == DecodePayload(engine, domainMode, deflated, checksum, payload)
  {
    hide DecodeValue, DecodePayload;
    ValueIsRead(engine, domainMode, deflated, checksum, payload);
  }

  lemma ValueCarried(engine: Engine, fragment: string) returns (value: string)
    requires DecodeShareLink(engine, fragment) != Absent
    ensures Carries(fragment, value)
  {
    hide DecodeValue, Split, Find, Cuts;
    var raw := if StartsWith(fragment, "#") then fragment[1..] else fragment;
    var i := Find(raw, MARKER, 0).value;
    assert At(raw, MARKER, i);
    value := Split(raw[i + |MARKER|..], '&')[0];
    var j := SplitIsCuts(raw, i + |MARKER|);
  }
}
