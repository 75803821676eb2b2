/**
 What the suppression comments of a source say, in the words of the source: which directive a
 comment gives, which rules its list names, and what that suppresses.
 */
module PragmaTexts {
  import opened JsText
  import opened Wrappers
  import opened Comments

  // ----- Lists of rules -----

  /** What stands from `i` to `j`, between commas or ends. */
  predicate Stretch(raw: string, i: nat, j: nat) {
    && i <= j <= |raw| && ',' !in raw[i..j]
    && (i == 0 || raw[i - 1] == ',') && (j == |raw| || raw[j] == ',')
  }

  /** The list names `id`, white space around it aside. */
  ghost predicate Listed(raw: string, id: string) {
    id != "" && exists i: nat, j: nat | Stretch(raw, i, j) :: Trim(raw[i..j]) == id
  }

  /** The list is empty, or has a `*` in it: it stands for every rule. */
  ghost predicate NamesAll(raw: string) {
    Listed(raw, "*") || forall id :: !Listed(raw, id)
  }

  ghost predicate NamesRule(raw: string, rule: string) {
    NamesAll(raw) || Listed(raw, rule)
  }

  predicate StandsAt(raw: string, i: nat, j: nat, p: string) {
    Stretch(raw, i, j) && raw[i..j] == p
  }

  /** `p` is a stretch of the list. */
  ghost predicate Stands(raw: string, p: string) {
    exists i: nat, j: nat :: StandsAt(raw, i, j, p)
  }

  lemma {:induction false} PartsAreStretches(raw: string, p: string)
    ensures p in Split(raw, ',') <==> Stands(raw, p)
    decreases |raw|
  {
    hide Split, Stands;
    var first, rest := FirstPart(raw);
    if rest == "" {
      assert raw == first;
      SplitOfHead(first, ',', "");
      OnlyStretch(raw, p);
    } else {
      var tail := rest[1..];
      assert rest == [','] + tail;
      SplitOfHead(first, ',', tail);
      assert raw == first + [','] + tail;
      PartsAreStretches(tail, p);
      StretchesBehind(first, tail, p);
    }
  }

  lemma {:induction false} FirstPart(s: string) returns (first: string, rest: string)
    ensures s == first + rest && ',' !in first && (rest == "" || rest[0] == ',')
    ensures |rest| <= |s|
  {
    if s == "" || s[0] == ',' {
      first, rest := "", s;
    } else {
      first, rest := FirstPart(s[1..]);
      first := [s[0]] + first;
    }
  }

  lemma OnlyStretch(raw: string, p: string)
    requires ',' !in raw
    ensures p == raw <==> Stands(raw, p)
  {
    assert raw[0..|raw|] == raw;
    assert StandsAt(raw, 0, |raw|, raw);
  }

  /** The stretches of a list are its first one and those behind the first comma. */
  lemma StretchesBehind(first: string, tail: string, p: string)
    requires ',' !in first
    ensures Stands(first + [','] + tail, p) <==> p == first || Stands(tail, p)
  {
    hide StandsAt;
    var raw, n: nat := first + [','] + tail, |first| + 1;
    FirstStretch(first, tail);
    if Stands(tail, p) {
      var i: nat, j: nat :| StandsAt(tail, i, j, p);
      LaterStretch(first, tail, i, j, p);
      assert StandsAt(raw, i + n, j + n, p);
    }
    if Stands(raw, p) {
      var i: nat, j: nat :| StandsAt(raw, i, j, p);
      StretchSide(first, tail, i, j, p);
      if p != first {
        LaterStretch(first, tail, i - n, j - n, p);
        assert StandsAt(tail, i - n, j - n, p);
      }
    }
  }

  lemma FirstStretch(first: string, tail: string)
    requires ',' !in first
    ensures StandsAt(first + [','] + tail, 0, |first|, first)
  {
    assert (first + [','] + tail)[0..|first|] == first;
  }

  lemma LaterStretch(first: string, tail: string, i: nat, j: nat, p: string)
    ensures StandsAt(first + [','] + tail, i + |first| + 1, j + |first| + 1, p) <==> StandsAt(tail, i, j, p)
  {
    var raw, n := first + [','] + tail, |first| + 1;
    assert raw[n..] == tail;
    if i <= j <= |tail| {
      assert raw[n..][i..j] == raw[i + n..j + n];
      assert i > 0 ==> raw[i + n - 1] == tail[i - 1];
      assert raw[n - 1] == ',';
      assert j < |tail| ==> raw[j + n] == tail[j];
    }
  }

  lemma StretchSide(first: string, tail: string, i: nat, j: nat, p: string)
    requires ',' !in first && StandsAt(first + [','] + tail, i, j, p)
    ensures p == first || |first| < i <= j
  {
    var raw, m: nat := first + [','] + tail, |first|;
    assert raw[m] == ',' && forall k | 0 <= k < m :: raw[k] == first[k];
    if i <= m {
      if j > m {
        CommaInside(raw, i, j, m);
        assert false;
      }
      assert j == m && i == 0;
      assert raw[..m] == first;
    }
  }

  lemma CommaInside(raw: string, i: nat, j: nat, m: nat)
    requires i <= m < j <= |raw| && raw[m] == ','
    ensures ',' in raw[i..j]
  {
    assert raw[i..j][m - i] == ',';
  }

  lemma {:induction false} TrimmedParts(parts: seq<string>, id: string)
    ensures id in TrimAll(parts) <==> exists p | p in parts :: Trim(p) == id
  {
    hide Trim;
    if parts != [] {
      TrimmedParts(parts[1..], id);
      assert parts == [parts[0]] + parts[1..];
    }
  }

  lemma ListedMeans(raw: string, id: string)
    ensures Listed(raw, id) <==> id != "" && id in TrimAll(Split(raw, ','))
  {
    hide Split, Trim;
    TrimmedParts(Split(raw, ','), id);
    if Listed(raw, id) {
      var i: nat, j: nat :| Stretch(raw, i, j) && Trim(raw[i..j]) == id;
      assert StandsAt(raw, i, j, raw[i..j]);
      PartsAreStretches(raw, raw[i..j]);
    }
    if id != "" && id in TrimAll(Split(raw, ',')) {
      var p :| p in Split(raw, ',') && Trim(p) == id;
      PartsAreStretches(raw, p);
    }
  }

  /** The rules read off a list are those that stand in it between commas; an empty list or a `*` means all. */
  lemma RuleListMeans(raw: string)
    ensures RuleList(raw).All? <==> NamesAll(raw)
    ensures RuleList(raw).Only? ==> forall id :: id in RuleList(raw).ids <==> Listed(raw, id)
  {
    hide Split, Trim, Listed, TrimAll;
    forall id ensures Listed(raw, id) <==> id != "" && id in TrimAll(Split(raw, ',')) {
      ListedMeans(raw, id);
    }
    var parts := set p | p in TrimAll(Split(raw, ',')) && p != "";
    assert forall id :: id in parts <==> Listed(raw, id);
    if parts != {} {
      var id :| id in parts;
      assert Listed(raw, id);
    }
  }

  lemma CoversMeans(raw: string, rule: string)
    ensures Covers(RuleList(raw), rule) <==> NamesRule(raw, rule)
  {
    hide RuleList, Listed, NamesAll;
    RuleListMeans(raw);
  }

  // ----- Directives -----

  /** A directive as it is written. */
  function Word(kind: Kind): string {
    match kind
    case DisableNextLine => "stellar-toml-lint-disable-next-line"
    case DisableLine => "stellar-toml-lint-disable-line"
    case Disable => "stellar-toml-lint-disable"
    case Enable => "stellar-toml-lint-enable"
  }

  lemma WordParts(kind: Kind)
    ensures PREFIX + Name(kind) == Word(kind)
  {
  }

  /**
   A sign, white space and a directive written out, with no letter, digit, underscore or hyphen
   behind it: that directive is read, with the rest of the line as its list.
   */
  lemma DirectiveIsRead(space: string, kind: Kind, rest: string)
    requires AllSpace(space) && (rest == "" || (!IsWord(rest[0]) && rest[0] != '-'))
    ensures MatchAt("#" + space + Word(kind) + rest) == Some((kind, Dots(rest)))
  {
    hide Dots, Directive, DirectiveWord, MatchAt, TrimStart, AllSpace, IsWord, PREFIX, Name, Opens;
    WordParts(kind);
    var u := Name(kind) + rest;
    var text := "#" + space + Word(kind) + rest;
    assert text[1..] == space + (PREFIX + u) && text[0] == '#';
    PrefixStays(space, u);
    DirectiveInFull(kind, rest);
    MatchFrom(text, u);
    assert u[|Name(kind)|..] == rest;
  }

  lemma DirectiveInFull(kind: Kind, rest: string)
    requires rest == "" || (!IsWord(rest[0]) && rest[0] != '-')
    ensures Directive(Name(kind) + rest) == Some(kind)
  {
    hide Directive, IsWord, Name, Opens;
    var u := Name(kind) + rest;
    NamesAreWords(kind);
    assert u[..|Name(kind)|] == Name(kind);
    assert |Name(kind)| < |u| ==> u[|Name(kind)|] == rest[0];
    WordIs(u, Name(kind));
    LongestNameIsRead(u, kind);
  }

  lemma MatchFrom(text: string, u: string)
    requires text != "" && text[0] == '#' && TrimStart(text[1..]) == PREFIX + u
    ensures Directive(u).Some? ==>
      var kind := Directive(u).value; |Name(kind)| <= |u| && MatchAt(text) == Some((kind, Dots(u[|Name(kind)|..])))
  {
    hide Directive, Dots, TrimStart;
    DirectiveOpens(u);
    assert (PREFIX + u)[..|PREFIX|] == PREFIX && (PREFIX + u)[|PREFIX|..] == u;
  }

  lemma {:induction false} PrefixStays(space: string, u: string)
    requires AllSpace(space)
    ensures TrimStart(space + (PREFIX + u)) == PREFIX + u
  {
    var t := space + (PREFIX + u);
    if space == "" {
      assert t == PREFIX + u && t[0] == 's';
    } else {
      assert t[0] == space[0] && t[1..] == space[1..] + (PREFIX + u);
      PrefixStays(space[1..], u);
    }
  }

  /** The rest of a line: everything, as there is no line terminator in it. */
  lemma {:induction false} RestOfLine(s: string)
    requires forall c | c in s :: c != '\n' && c != '\r' && c != '\U{2028}' && c != '\U{2029}'
    ensures Dots(s) == s
  {
    DotsOfPlain(s);
  }

  // ----- Lines -----

  function WithoutReturn(line: string): string {
    if line != "" && line[|line| - 1] == '\r' then line[..|line| - 1] else line
  }

  /** The lines of a source, ended by a line feed or by a carriage return and a line feed. */
  lemma LinesMean(line: string, rest: string)
    requires '\n' !in line
    ensures Lines(line) == [line]
    ensures Lines(line + "\n" + rest) == [WithoutReturn(line)] + Lines(rest)
  {
    hide Split;
    SplitOfHead(line, '\n', rest);
    assert line + "\n" + rest == line + ['\n'] + rest;
    var parts := Split(rest, '\n');
    assert ([line] + parts)[1..] == parts;
  }

  // ----- What is declared -----

  /** The directive that line `n` gives, counted from 1, and its list. */
  function DirectiveAt(lines: seq<string>, n: nat): Option<(Kind, string)> {
    if 1 <= n <= |lines| then Exec(lines[n - 1]) else None
  }

  /** Line `n` gives this directive for the rule. */
  ghost predicate Orders(lines: seq<string>, n: nat, kind: Kind, rule: string) {
    var d := DirectiveAt(lines, n);
    d.Some? && d.value.0 == kind && NamesRule(d.value.1, rule)
  }

  /** The directive of line `n` is for all rules. */
  ghost predicate ForAll(lines: seq<string>, n: nat) {
    var d := DirectiveAt(lines, n);
    d.Some? && NamesAll(d.value.1)
  }

  /** An `enable` on line `n` ends a block for the rule: one for all rules, any; one that names it, only a specific one. */
  ghost predicate Ends(lines: seq<string>, n: nat, rule: string, wild: bool) {
    var d := DirectiveAt(lines, n);
    d.Some? && d.value.0 == Enable && (NamesAll(d.value.1) || (!wild && Listed(d.value.1, rule)))
  }

  /** Line `k` opened a block for the rule that no line after it, down to line `n`, ended. */
  ghost predicate Blocked(lines: seq<string>, k: nat, n: nat, rule: string) {
    && 1 <= k <= n <= |lines| && Orders(lines, k, Disable, rule)
    && forall j | k < j <= n :: !Ends(lines, j, rule, ForAll(lines, k))
  }

  ghost predicate Declared(lines: seq<string>, line: nat, rule: string) {
    || Orders(lines, line, DisableLine, rule)
    || (line >= 1 && Orders(lines, line - 1, DisableNextLine, rule))
    || exists k :: Blocked(lines, k, line, rule)
  }

  lemma PragmaIs(lines: seq<string>, n: nat)
    ensures PragmaAt(lines, n) ==
      match DirectiveAt(lines, n) case None => None case Some(d) => Some(Pragma(d.0, RuleList(d.1)))
  {
    hide Exec, RuleList;
  }

  lemma OrdersMeans(lines: seq<string>, n: nat, kind: Kind, rule: string)
    ensures Carries(lines, n, kind, rule) <==> Orders(lines, n, kind, rule)
    ensures Wild(lines, n) <==> ForAll(lines, n)
    ensures forall wild :: Lifts(PragmaAt(lines, n), rule, wild) <==> Ends(lines, n, rule, wild)
  {
    hide Exec, RuleList, Listed, NamesAll, PragmaAt;
    PragmaIs(lines, n);
    var d := DirectiveAt(lines, n);
    if d.Some? {
      RuleListMeans(d.value.1);
      CoversMeans(d.value.1, rule);
    }
  }

  lemma DecidedMeans(lines: seq<string>, line: nat, rule: string)
    ensures Decided(lines, line, rule) <==> Declared(lines, line, rule)
  {
    hide Carries, Orders, Wild, ForAll, Lifts, Ends, PragmaAt;
    OrdersMeans(lines, line, DisableLine, rule);
    if line >= 1 {
      OrdersMeans(lines, line - 1, DisableNextLine, rule);
    }
    forall k: nat ensures Holds(lines, k, line, rule) <==> Blocked(lines, k, line, rule) {
      OrdersMeans(lines, k, Disable, rule);
      forall j: nat ensures Lifts(PragmaAt(lines, j), rule, Wild(lines, k)) <==> Ends(lines, j, rule, ForAll(lines, k)) {
        OrdersMeans(lines, j, Disable, rule);
      }
    }
  }

  // ----- Main results -----

  /**
   The map built from a list of lines says that a rule is suppressed on a line exactly when a
   directive for the line, one for the next line above it, or a block that still holds there
   names the rule.
   */
  lemma MapIsDeclared(lines: seq<string>, line: nat, rule: string)
    ensures IsSuppressed(ReadLines(lines).lines, Some(line), rule) <==> Declared(lines, line, rule)
  {
    hide ReadLines, IsSuppressed, Decided, Declared;
    MapIsDecided(lines, line, rule);
    DecidedMeans(lines, line, rule);
  }

  /** For every source, line and rule: suppressed means declared. */
  lemma SuppressedMeansDeclared(source: string, line: Option<nat>, rule: string)
    ensures IsSuppressed(Suppressions(source), line, rule) <==>
      line.Some? && Declared(Lines(source), line.value, rule)
  {
    hide ReadLines, Declared;
    if line.Some? {
      MapIsDeclared(Lines(source), line.value, rule);
    }
  }
}
