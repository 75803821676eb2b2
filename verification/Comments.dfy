/**
 The suppression pragmas of `src/comments.ts`: how one is recognised, what the
 block machine makes of all of them, and what that means line by line.
 */
module Comments {
  import opened JsText
  import opened Wrappers

  /** `'*'` or a set of rule ids. */
  datatype Rules = All | Only(ids: set<string>)

  datatype Kind = DisableNextLine | DisableLine | Disable | Enable

  datatype Pragma = Pragma(kind: Kind, rules: Rules)

  predicate Covers(rules: Rules, rule: string) {
    rules.All? || rule in rules.ids
  }

  // ----- Recognising a pragma -----

  const PREFIX := "stellar-toml-lint-"

  /** `\w`. */
  predicate IsWord(c: char) {
    'a' <= c <= 'z' || 'A' <= c <= 'Z' || '0' <= c <= '9' || c == '_'
  }

  /** What `.` does not match. */
  predicate EndsLine(c: char) {
    c == '\n' || c == '\r' || c == '\U{2028}' || c == '\U{2029}'
  }

  function Name(kind: Kind): string {
    match kind
    case DisableNextLine => "disable-next-line"
    case DisableLine => "disable-line"
    case Disable => "disable"
    case Enable => "enable"
  }

  /** `s` starts with the directive's name and a word boundary follows it. */
  predicate Opens(s: string, kind: Kind) {
    StartsWith(s, Name(kind)) && (|s| == |Name(kind)| || !IsWord(s[|Name(kind)|]))
  }

  /** The alternatives of the expression, in the order it tries them. */
  function Directive(s: string): Option<Kind> {
    if Opens(s, DisableNextLine) then Some(DisableNextLine)
    else if Opens(s, DisableLine) then Some(DisableLine)
    else if Opens(s, Disable) then Some(Disable)
    else if Opens(s, Enable) then Some(Enable)
    else None
  }

  /** The longest start of `s` without a line terminator: `(.*)`. */
  function Dots(s: string): string {
    if s == "" || EndsLine(s[0]) then "" else [s[0]] + Dots(s[1..])
  }

  /** The expression matched at the start of `s`: the directive and what it captures behind it. */
  function MatchAt(s: string): Option<(Kind, string)> {
    if s == "" || s[0] != '#' then None
    else
      var t := TrimStart(s[1..]);
      if !StartsWith(t, PREFIX) then None
      else
        var u := t[|PREFIX|..];
        match Directive(u)
        case None => None
        case Some(kind) => Some((kind, Dots(u[|Name(kind)|..])))
  }

  /** `PRAGMA.exec(text)`. */
  function Exec(text: string): Option<(Kind, string)> {
    if MatchAt(text).Some? || text == "" then MatchAt(text) else Exec(text[1..])
  }

  /** The match found is the one that starts furthest left. */
  lemma {:induction false} ExecIsLeftmost(text: string)
    ensures Exec(text).None? ==> forall i | 0 <= i <= |text| :: MatchAt(text[i..]).None?
    ensures Exec(text).Some? ==>
      exists i | 0 <= i <= |text| :: MatchAt(text[i..]) == Exec(text) && forall j | 0 <= j < i :: MatchAt(text[j..]).None?
  {
    hide MatchAt;
    assert text[0..] == text;
    if MatchAt(text).None? && text != "" {
      ExecIsLeftmost(text[1..]);
      assert forall i | 1 <= i <= |text| :: text[i..] == text[1..][i - 1..];
      if Exec(text).Some? {
        var i :| 0 <= i <= |text[1..]| && MatchAt(text[1..][i..]) == Exec(text[1..]) &&
                 forall j | 0 <= j < i :: MatchAt(text[1..][j..]).None?;
        assert MatchAt(text[i + 1..]) == Exec(text);
        forall j | 0 <= j < i + 1 ensures MatchAt(text[j..]).None? {
          if j > 0 {
            assert text[j..] == text[1..][j - 1..];
          }
        }
      }
    }
  }

  function TrimAll(parts: seq<string>): seq<string> {
    if parts == [] then [] else [Trim(parts[0])] + TrimAll(parts[1..])
  }

  function RuleList(raw: string): Rules {
    var parts := set p | p in TrimAll(Split(raw, ',')) && p != "";
    if parts == {} || "*" in parts then All else Only(parts)
  }

  function PragmaOf(text: string): Option<Pragma> {
    match Exec(text)
    case None => None
    case Some(m) => Some(Pragma(m.0, RuleList(m.1)))
  }

  function DropReturn(line: string): string {
    if line != "" && line[|line| - 1] == '\r' then line[..|line| - 1] else line
  }

  function DropReturns(lines: seq<string>): seq<string>
    requires lines != []
  {
    if |lines| == 1 then lines else [DropReturn(lines[0])] + DropReturns(lines[1..])
  }

  /** `source.split(/\r?\n/)`. */
  function Lines(source: string): seq<string> {
    DropReturns(Split(source, '\n'))
  }

  // ----- The block machine -----

  datatype State = State(lines: map<nat, Rules>, blocks: seq<Rules>)

  function AddTo(lines: map<nat, Rules>, line: nat, rules: Rules): map<nat, Rules> {
    if rules.All? then lines[line := All]
    else if line !in lines then lines[line := rules]
    else if lines[line].All? then lines
    else lines[line := Only(lines[line].ids + rules.ids)]
  }

  /** What is left of a block without the rules: nothing, if it was specific and named no others. */
  function Without(block: Rules, ids: set<string>): seq<Rules> {
    if block.All? then [All] else if block.ids - ids == {} then [] else [Only(block.ids - ids)]
  }

  /** Takes the rules out of every specific block, and the blocks left empty out of the stack. */
  function Lifted(blocks: seq<Rules>, ids: set<string>): seq<Rules> {
    if blocks == [] then [] else Without(blocks[0], ids) + Lifted(blocks[1..], ids)
  }

  function Union(blocks: seq<Rules>): set<string> {
    if blocks == [] then {} else (if blocks[0].Only? then blocks[0].ids else {}) + Union(blocks[1..])
  }

  function Heed(s: State, line: nat, p: Pragma): State {
    match p.kind
    case DisableLine => s.(lines := AddTo(s.lines, line, p.rules))
    case DisableNextLine => s.(lines := AddTo(s.lines, line + 1, p.rules))
    case Disable => s.(blocks := s.blocks + [p.rules])
    case Enable => s.(blocks := if p.rules.All? then [] else Lifted(s.blocks, p.rules.ids))
  }

  /** The blocks active after a line's own pragma cover the line. */
  function CoverLine(s: State, line: nat): State {
    if s.blocks == [] then s
    else s.(lines := AddTo(s.lines, line, if All in s.blocks then All else Only(Union(s.blocks))))
  }

  function ReadLine(s: State, line: nat, text: string): State {
    var p := PragmaOf(text);
    CoverLine(if p.Some? then Heed(s, line, p.value) else s, line)
  }

  function ReadLines(lines: seq<string>): State {
    if lines == [] then State(map[], [])
    else ReadLine(ReadLines(lines[..|lines| - 1]), |lines|, lines[|lines| - 1])
  }

  function Suppressions(source: string): map<nat, Rules> {
    ReadLines(Lines(source)).lines
  }

  function IsSuppressed(lines: map<nat, Rules>, line: Option<nat>, rule: string): bool {
    line.Some? && line.value in lines && Covers(lines[line.value], rule)
  }

  // ----- What the pragmas mean -----

  /** The pragma of line `n`, counted from 1. */
  function PragmaAt(lines: seq<string>, n: nat): Option<Pragma> {
    if 1 <= n <= |lines| then PragmaOf(lines[n - 1]) else None
  }

  /** Line `n` carries a pragma of this kind that names the rule. */
  predicate Carries(lines: seq<string>, n: nat, kind: Kind, rule: string) {
    var p := PragmaAt(lines, n);
    p.Some? && p.value.kind == kind && Covers(p.value.rules, rule)
  }

  /** An `enable` that lifts the rule from wildcard blocks (`wild`) or from specific ones. */
  predicate Lifts(p: Option<Pragma>, rule: string, wild: bool) {
    p.Some? && p.value.kind == Enable && (p.value.rules.All? || (!wild && rule in p.value.rules.ids))
  }

  /** The pragma of line `k` names every rule. */
  predicate Wild(lines: seq<string>, k: nat) {
    PragmaAt(lines, k).Some? && PragmaAt(lines, k).value.rules.All?
  }

  /** A block opened by line `k` still holds the rule back after the pragma of line `n`. */
  ghost predicate Holds(lines: seq<string>, k: nat, n: nat, rule: string) {
    && 1 <= k <= n <= |lines| && Carries(lines, k, Disable, rule)
    && forall j | k < j <= n :: !Lifts(PragmaAt(lines, j), rule, Wild(lines, k))
  }

  ghost predicate Decided(lines: seq<string>, line: nat, rule: string) {
    || Carries(lines, line, DisableLine, rule)
    || (line >= 1 && Carries(lines, line - 1, DisableNextLine, rule))
    || exists k :: Holds(lines, k, line, rule)
  }

  // ----- Proof -----

  lemma AddCovers(lines: map<nat, Rules>, line: nat, rules: Rules, n: nat, rule: string)
    ensures IsSuppressed(AddTo(lines, line, rules), Some(n), rule) <==>
      IsSuppressed(lines, Some(n), rule) || (n == line && Covers(rules, rule))
  {
  }

  ghost predicate Active(blocks: seq<Rules>, rule: string) {
    exists i | 0 <= i < |blocks| :: Covers(blocks[i], rule)
  }

  lemma {:induction false} UnionCovers(blocks: seq<Rules>, rule: string)
    ensures Active(blocks, rule) <==> All in blocks || rule in Union(blocks)
    decreases |blocks|
  {
    if blocks != [] {
      UnionCovers(blocks[1..], rule);
      assert forall i | 0 < i < |blocks| :: blocks[i] == blocks[1..][i - 1];
      assert Active(blocks, rule) <==> Covers(blocks[0], rule) || Active(blocks[1..], rule);
    }
  }

  lemma CoverAdds(s: State, line: nat, n: nat, rule: string)
    ensures IsSuppressed(CoverLine(s, line).lines, Some(n), rule) <==>
      IsSuppressed(s.lines, Some(n), rule) || (n == line && Active(s.blocks, rule))
  {
    UnionCovers(s.blocks, rule);
    if s.blocks != [] {
      AddCovers(s.lines, line, if All in s.blocks then All else Only(Union(s.blocks)), n, rule);
    }
  }

  /** The block stack holds, for a rule, a wildcard block or a specific one of the kind asked for. */
  ghost predicate HasBlock(blocks: seq<Rules>, rule: string, wild: bool) {
    exists i | 0 <= i < |blocks| :: blocks[i].All? == wild && Covers(blocks[i], rule)
  }

  lemma {:induction false} LiftedBlocks(blocks: seq<Rules>, ids: set<string>, rule: string)
    ensures HasBlock(Lifted(blocks, ids), rule, true) <==> HasBlock(blocks, rule, true)
    ensures HasBlock(Lifted(blocks, ids), rule, false) <==> HasBlock(blocks, rule, false) && rule !in ids
    decreases |blocks|
  {
    if blocks != [] {
      LiftedBlocks(blocks[1..], ids, rule);
      BlockSplit([blocks[0]], blocks[1..], rule);
      assert blocks == [blocks[0]] + blocks[1..];
      BlockSplit(Without(blocks[0], ids), Lifted(blocks[1..], ids), rule);
      WithoutBlocks(blocks[0], ids, rule);
    }
  }

  lemma WithoutBlocks(block: Rules, ids: set<string>, rule: string)
    ensures HasBlock(Without(block, ids), rule, true) <==> block.All?
    ensures HasBlock(Without(block, ids), rule, false) <==> block.Only? && rule in block.ids && rule !in ids
  {
    var left := if block.Only? then block.ids - ids else {};
    assert block.Only? ==> (rule in left <==> rule in block.ids && rule !in ids);
    if Without(block, ids) != [] {
      BlockSplit(Without(block, ids), [], rule);
    }
  }

  lemma BlockSplit(a: seq<Rules>, b: seq<Rules>, rule: string)
    ensures forall wild :: HasBlock(a + b, rule, wild) <==> HasBlock(a, rule, wild) || HasBlock(b, rule, wild)
    ensures |a| == 1 ==> forall wild :: HasBlock(a, rule, wild) <==> a[0].All? == wild && Covers(a[0], rule)
    ensures |b| == 1 ==> forall wild :: HasBlock(b, rule, wild) <==> b[0].All? == wild && Covers(b[0], rule)
  {
    forall wild ensures HasBlock(a + b, rule, wild) <==> HasBlock(a, rule, wild) || HasBlock(b, rule, wild) {
      if HasBlock(a, rule, wild) {
        var i :| 0 <= i < |a| && a[i].All? == wild && Covers(a[i], rule);
        assert (a + b)[i] == a[i];
      }
      if HasBlock(b, rule, wild) {
        var i :| 0 <= i < |b| && b[i].All? == wild && Covers(b[i], rule);
        assert (a + b)[|a| + i] == b[i];
      }
    }
  }

  /** Line `k` opened a wildcard (or a specific) block that still holds after line `n`. */
  ghost predicate HoldsAs(lines: seq<string>, k: nat, n: nat, rule: string, wild: bool) {
    Holds(lines, k, n, rule) && Wild(lines, k) == wild
  }

  lemma HoldsFront(lines: seq<string>, k: nat, n: nat, rule: string, wild: bool)
    requires lines != []
    ensures n < |lines| ==> (HoldsAs(lines, k, n, rule, wild) <==> HoldsAs(lines[..|lines| - 1], k, n, rule, wild))
    ensures n == |lines| && k < n ==>
      (HoldsAs(lines, k, n, rule, wild) <==>
         HoldsAs(lines[..|lines| - 1], k, n - 1, rule, wild) && !Lifts(PragmaAt(lines, n), rule, wild))
    ensures n == |lines| && k == n ==>
      (HoldsAs(lines, k, n, rule, wild) <==> Carries(lines, n, Disable, rule) && Wild(lines, n) == wild)
  {
    hide PragmaOf, Covers, Lifts;
    var front := lines[..|lines| - 1];
    forall j: nat | j < |lines| ensures PragmaAt(front, j) == PragmaAt(lines, j) {
      assert j >= 1 ==> front[j - 1] == lines[j - 1];
    }
  }

  /** What one line does to the stack, for a rule and a kind of block. */
  lemma StepBlocks(lines: seq<string>, rule: string, wild: bool)
    requires lines != []
    ensures HasBlock(ReadLines(lines).blocks, rule, wild) <==>
      || (HasBlock(ReadLines(lines[..|lines| - 1]).blocks, rule, wild) && !Lifts(PragmaAt(lines, |lines|), rule, wild))
      || (Carries(lines, |lines|, Disable, rule) && Wild(lines, |lines|) == wild)
  {
    hide PragmaOf, AddTo, Union, Lifted, HasBlock, Covers;
    var before := ReadLines(lines[..|lines| - 1]);
    var p := PragmaOf(lines[|lines| - 1]);
    if p.Some? {
      if p.value.kind == Disable {
        BlockSplit(before.blocks, [p.value.rules], rule);
      } else if p.value.kind == Enable {
        if p.value.rules.All? {
          NoBlocks(rule, wild);
        } else {
          LiftedBlocks(before.blocks, p.value.rules.ids, rule);
        }
      }
    }
  }

  lemma NoBlocks(rule: string, wild: bool)
    ensures !HasBlock([], rule, wild)
  {
  }

  /** The stack after reading lines holds exactly the blocks that still hold. */
  lemma {:induction false} BlocksHold(lines: seq<string>, rule: string, wild: bool)
    ensures HasBlock(ReadLines(lines).blocks, rule, wild) <==> exists k :: HoldsAs(lines, k, |lines|, rule, wild)
    decreases |lines|
  {
    hide PragmaAt, Covers, HasBlock, ReadLine, Lifts, HoldsAs, Carries, Wild;
    if lines == [] {
      NoBlocks(rule, wild);
      forall k: nat ensures !HoldsAs(lines, k, 0, rule, wild) {
        HoldsInside(lines, k, 0, rule, wild);
      }
    } else {
      var front, n := lines[..|lines| - 1], |lines|;
      BlocksHold(front, rule, wild);
      StepBlocks(lines, rule, wild);
      forall k: nat
        ensures HoldsAs(lines, k, n, rule, wild) <==>
          || (HoldsAs(front, k, n - 1, rule, wild) && !Lifts(PragmaAt(lines, n), rule, wild))
          || (k == n && Carries(lines, n, Disable, rule) && Wild(lines, n) == wild)
      {
        HoldsFront(lines, k, n, rule, wild);
        HoldsInside(lines, k, n, rule, wild);
        HoldsInside(front, k, n - 1, rule, wild);
      }
      if HasBlock(ReadLines(front).blocks, rule, wild) {
        var k: nat :| HoldsAs(front, k, |front|, rule, wild);
        assert HoldsAs(lines, k, n, rule, wild) <== !Lifts(PragmaAt(lines, n), rule, wild);
      }
      assert HoldsAs(lines, n, n, rule, wild) <== Carries(lines, n, Disable, rule) && Wild(lines, n) == wild;
      if exists k :: HoldsAs(lines, k, n, rule, wild) {
        var k: nat :| HoldsAs(lines, k, n, rule, wild);
        assert k != n || !Carries(lines, n, Disable, rule) ==> HoldsAs(front, k, |front|, rule, wild);
      }
    }
  }

  lemma HoldsInside(lines: seq<string>, k: nat, n: nat, rule: string, wild: bool)
    ensures HoldsAs(lines, k, n, rule, wild) ==> 1 <= k <= n <= |lines|
  {
  }

  lemma ActiveIs(blocks: seq<Rules>, rule: string)
    ensures Active(blocks, rule) <==> HasBlock(blocks, rule, true) || HasBlock(blocks, rule, false)
  {
    hide Covers;
    if Active(blocks, rule) {
      var i :| 0 <= i < |blocks| && Covers(blocks[i], rule);
      assert HasBlock(blocks, rule, blocks[i].All?);
    }
  }

  lemma CarriesFront(lines: seq<string>, n: nat, kind: Kind, rule: string)
    requires lines != []
    ensures n < |lines| ==> (Carries(lines, n, kind, rule) <==> Carries(lines[..|lines| - 1], n, kind, rule))
    ensures n > |lines| ==> !Carries(lines, n, kind, rule)
    ensures n >= |lines| ==> !Carries(lines[..|lines| - 1], n, kind, rule)
  {
    hide PragmaOf, Covers;
  }

  lemma HeedAdds(s: State, line: nat, p: Pragma, n: nat, rule: string)
    ensures IsSuppressed(Heed(s, line, p).lines, Some(n), rule) <==>
      || IsSuppressed(s.lines, Some(n), rule)
      || (n == line && p.kind == DisableLine && Covers(p.rules, rule))
      || (n == line + 1 && p.kind == DisableNextLine && Covers(p.rules, rule))
  {
    hide AddTo, Covers, IsSuppressed, Lifted;
    AddCovers(s.lines, line, p.rules, n, rule);
    AddCovers(s.lines, line + 1, p.rules, n, rule);
  }

  /** What a line's pragma and the active blocks add to the map. */
  lemma StepLines(lines: seq<string>, n: nat, rule: string)
    requires lines != []
    ensures IsSuppressed(ReadLines(lines).lines, Some(n), rule) <==>
      || IsSuppressed(ReadLines(lines[..|lines| - 1]).lines, Some(n), rule)
      || (n == |lines| && Carries(lines, n, DisableLine, rule))
      || (n == |lines| + 1 && Carries(lines, n - 1, DisableNextLine, rule))
      || (n == |lines| && Active(ReadLines(lines).blocks, rule))
  {
    hide PragmaOf, AddTo, Covers, IsSuppressed, Active, Union, Heed;
    var before, line := ReadLines(lines[..|lines| - 1]), |lines|;
    var p := PragmaAt(lines, line);
    var heeded := if p.Some? then Heed(before, line, p.value) else before;
    assert ReadLines(lines) == CoverLine(heeded, line);
    CoverAdds(heeded, line, n, rule);
    if p.Some? {
      HeedAdds(before, line, p.value, n, rule);
    }
  }

  /**
   The map says that a rule is suppressed on a line exactly when a pragma for the line,
   one for the next line above it, or a block that still holds there says so.
   */
  lemma {:induction false} MapIsDecided(lines: seq<string>, n: nat, rule: string)
    ensures IsSuppressed(ReadLines(lines).lines, Some(n), rule) <==> Decided(lines, n, rule)
    decreases |lines|
  {
    hide PragmaOf, Covers, HasBlock, ReadLine, Holds, Carries, Active, IsSuppressed;
    if lines == [] {
      NothingDecided(n, rule);
    } else {
      var front := lines[..|lines| - 1];
      MapIsDecided(front, n, rule);
      StepLines(lines, n, rule);
      CarriesFront(lines, n, DisableLine, rule);
      if n >= 1 {
        CarriesFront(lines, n - 1, DisableNextLine, rule);
      }
      forall k: nat
        ensures n < |lines| ==> (Holds(lines, k, n, rule) <==> Holds(front, k, n, rule))
        ensures n >= |lines| ==> !Holds(front, k, n, rule)
        ensures n > |lines| ==> !Holds(lines, k, n, rule)
      {
        HoldsFront(lines, k, n, rule, Wild(lines, k));
        HoldsFront(lines, k, n, rule, Wild(front, k));
        HoldsInside(lines, k, n, rule, Wild(lines, k));
        HoldsInside(front, k, n, rule, Wild(front, k));
      }
      if n == |lines| {
        ActiveIs(ReadLines(lines).blocks, rule);
        BlocksHold(lines, rule, true);
        BlocksHold(lines, rule, false);
        forall k: nat ensures Holds(lines, k, n, rule) <==> HoldsAs(lines, k, n, rule, true) || HoldsAs(lines, k, n, rule, false) {
        }
      }
    }
  }

  lemma NothingDecided(n: nat, rule: string)
    ensures !IsSuppressed(ReadLines([]).lines, Some(n), rule) && !Decided([], n, rule)
  {
  }

  // ----- Main results -----

  lemma PragmaOfPrefix(lines: seq<string>, more: seq<string>, n: nat)
    requires n <= |lines|
    ensures PragmaAt(lines + more, n) == PragmaAt(lines, n)
  {
  }

  /** Nothing that follows a line changes what is suppressed on it, not even an `enable` that edits a live block. */
  lemma LaterLinesDoNotMatter(lines: seq<string>, more: seq<string>, n: nat, rule: string)
    requires n <= |lines|
    ensures IsSuppressed(ReadLines(lines + more).lines, Some(n), rule) <==> IsSuppressed(ReadLines(lines).lines, Some(n), rule)
  {
    hide ReadLines, PragmaAt, IsSuppressed, Lifts, Covers;
    MapIsDecided(lines, n, rule);
    MapIsDecided(lines + more, n, rule);
    forall j: nat | j <= n ensures PragmaAt(lines + more, j) == PragmaAt(lines, j) {
      PragmaOfPrefix(lines, more, j);
    }
    forall k: nat ensures Holds(lines + more, k, n, rule) <==> Holds(lines, k, n, rule) {
    }
  }

  /** A wildcard block covers every rule on every line down to the next bare `enable`, whatever specific ones do. */
  lemma WildcardStaysOpen(lines: seq<string>, k: nat, n: nat, rule: string)
    requires 1 <= k <= n <= |lines| && PragmaAt(lines, k) == Some(Pragma(Disable, All))
    requires forall j | k < j <= n :: PragmaAt(lines, j) != Some(Pragma(Enable, All))
    ensures IsSuppressed(ReadLines(lines).lines, Some(n), rule)
  {
    hide ReadLines, PragmaAt, IsSuppressed;
    MapIsDecided(lines, n, rule);
    forall j | k < j <= n ensures !Lifts(PragmaAt(lines, j), rule, Wild(lines, k)) {
      var p := PragmaAt(lines, j);
      assert p.Some? && p.value.rules.All? ==> p == Some(Pragma(p.value.kind, All));
    }
    assert Holds(lines, k, n, rule);
  }

  lemma MatchOfDirective(u: string)
    ensures MatchAt("#" + PREFIX + u) ==
      match Directive(u)
      case None => None
      case Some(kind) => Some((kind, Dots(u[|Name(kind)|..])))
  {
    hide Directive, Dots;
    var text := "#" + PREFIX + u;
    assert text[1..] == PREFIX + u && text[0] == '#';
    assert TrimStart(PREFIX + u) == PREFIX + u by {
      assert (PREFIX + u)[0] == 's';
    }
    assert (PREFIX + u)[..|PREFIX|] == PREFIX && (PREFIX + u)[|PREFIX|..] == u;
    DirectiveOpens(u);
  }

  lemma DirectiveOpens(u: string)
    ensures Directive(u).Some? ==> |Name(Directive(u).value)| <= |u|
  {
  }

  lemma MisspeltDirective()
    ensures Directive("disable-lines") == Some(Disable) && "disable-lines"[7..] == "-lines"
  {
    var u := "disable-lines";
    assert |Name(DisableNextLine)| == 17 && |Name(DisableLine)| == 12 && |Name(Disable)| == 7;
    assert u[12] == 's' && u[7] == '-';
    assert u[..7] == "disable";
  }

  lemma OneRule(name: string)
    requires ',' !in name && Trim(name) == name && name != "" && name != "*"
    ensures RuleList(name) == Only({name})
  {
    hide Split, Trim;
    SplitOfHead(name, ',', "");
    assert TrimAll([name]) == [Trim(name)] + TrimAll([name][1..]) == [name];
    var parts := set p | p in TrimAll(Split(name, ',')) && p != "";
    assert parts == {name};
  }

  // ----- Which directive is read -----

  predicate IsNameChar(c: char) {
    IsWord(c) || c == '-'
  }

  /** The whole word a text starts with, hyphens included. */
  function DirectiveWord(u: string): (w: string)
    ensures w <= u && (|w| < |u| ==> !IsNameChar(u[|w|])) && forall c | c in w :: IsNameChar(c)
  {
    if u == "" || !IsNameChar(u[0]) then "" else [u[0]] + DirectiveWord(u[1..])
  }

  lemma {:induction false} WordIs(u: string, w: string)
    requires w <= u && (|w| < |u| ==> !IsNameChar(u[|w|])) && forall c | c in w :: IsNameChar(c)
    ensures DirectiveWord(u) == w
  {
    if w != "" {
      assert u[0] == w[0] && w[0] in w;
      WordIs(u[1..], w[1..]);
    }
  }

  lemma NamesAreWords(kind: Kind)
    ensures forall c | c in Name(kind) :: IsNameChar(c)
  {
  }

  /** Two names open the same text only when the longer one continues the shorter one with a hyphen. */
  lemma NamesNest(u: string, longer: Kind, shorter: Kind)
    requires Opens(u, longer) && StartsWith(u, Name(shorter)) && |Name(shorter)| < |Name(longer)|
    ensures longer in {DisableNextLine, DisableLine} && shorter == Disable
  {
    var a, b := Name(longer), Name(shorter);
    assert a[..|b|] == u[..|a|][..|b|] == u[..|b|] == b;
    assert a[0] == b[0] && a[|b| - 1] == b[|b| - 1];
    assert Name(DisableNextLine)[8] == 'n' && Name(DisableLine)[8] == 'l';
    assert forall i | 0 <= i < |b| :: a[i] == b[i];
  }

  /**
   The directive read is the one with the longest name that opens the text. A name
   written out in full is read as itself; and what is read is the whole word if and
   only if no hyphen follows the name.
   */
  lemma LongestNameIsRead(u: string, kind: Kind)
    ensures Directive(u) == Some(kind) <==>
      Opens(u, kind) && forall other :: Opens(u, other) ==> |Name(other)| <= |Name(kind)|
    ensures DirectiveWord(u) == Name(kind) ==> Directive(u) == Some(kind)
    ensures Directive(u) == Some(kind) ==>
      (DirectiveWord(u) == Name(kind) <==> |u| == |Name(kind)| || u[|Name(kind)|] != '-')
  {
    NameLengths();
    forall a: Kind, b: Kind | Opens(u, a) && Opens(u, b) && |Name(b)| < |Name(a)|
      ensures a in {DisableNextLine, DisableLine} && b == Disable
    {
      NamesNest(u, a, b);
    }
    if DirectiveWord(u) == Name(kind) {
      WordIsRead(u, kind);
    }
    if Directive(u) == Some(kind) && (|u| == |Name(kind)| || u[|Name(kind)|] != '-') {
      NamesAreWords(kind);
      WordIs(u, Name(kind));
    }
  }

  lemma WordIsRead(u: string, kind: Kind)
    requires DirectiveWord(u) == Name(kind)
    ensures Opens(u, kind) && forall other :: Opens(u, other) ==> |Name(other)| <= |Name(kind)|
  {
    var n := |Name(kind)|;
    forall other | Opens(u, other) ensures |Name(other)| <= n {
      if n < |Name(other)| {
        assert u[n] == u[..|Name(other)|][n] == Name(other)[n] && Name(other)[n] in Name(other);
        NamesAreWords(other);
      }
    }
  }

  lemma NameLengths()
    ensures |Name(DisableNextLine)| == 17 && |Name(DisableLine)| == 12 && |Name(Disable)| == 7 && |Name(Enable)| == 6
  {
  }

  /** Every other word that starts with `disable-` is read as a block, for rules the first of which starts with the hyphen. */
  lemma MisspeltOpensBlock(u: string)
    requires StartsWith(u, "disable-") && !Opens(u, DisableNextLine) && !Opens(u, DisableLine)
    ensures var rules := RuleList(Dots(u[|Name(Disable)|..]));
      && PragmaOf("#" + PREFIX + u) == Some(Pragma(Disable, rules))
      && (rules.Only? ==> exists id | id in rules.ids :: id != "" && id[0] == '-')
  {
    hide Dots, RuleList, MatchAt, Exec;
    var raw := Dots(u[7..]);
    NameLengths();
    assert u[..7] == u[..8][..7] == "disable" && u[7] == u[..8][7] == '-';
    assert Directive(u) == Some(Disable);
    MatchOfDirective(u);
    PragmaAtStart("#" + PREFIX + u);
    DotsHead(u[7..]);
    FirstRule(raw);
  }

  lemma DotsHead(s: string)
    requires s != "" && s[0] == '-'
    ensures Dots(s) != "" && Dots(s)[0] == '-'
  {
  }

  /** The first rule of a list starts with the first character of the list. */
  lemma FirstRule(raw: string)
    requires raw != "" && raw[0] == '-'
    ensures RuleList(raw).Only? ==> exists id | id in RuleList(raw).ids :: id != "" && id[0] == '-'
  {
    hide Trim;
    var parts := Split(raw, ',');
    assert parts[0] != "" && parts[0][0] == '-';
    HyphenStays(parts[0]);
    assert TrimAll(parts)[0] == Trim(parts[0]);
    assert Trim(parts[0]) in TrimAll(parts);
  }

  lemma HyphenStays(s: string)
    requires s != "" && s[0] == '-'
    ensures Trim(s) != "" && Trim(s)[0] == '-'
  {
    hide IsSpace;
    HyphenIsNoSpace();
    assert TrimStart(s) == s;
    TrimEndHead(s);
  }

  lemma HyphenIsNoSpace()
    ensures !IsSpace('-')
  {
  }

  lemma {:induction false} TrimEndHead(s: string)
    requires s != "" && s[0] == '-'
    ensures TrimEnd(s) != "" && TrimEnd(s)[0] == '-'
    decreases |s|
  {
    hide IsSpace;
    HyphenIsNoSpace();
    if IsSpace(s[|s| - 1]) {
      TrimEndHead(s[..|s| - 1]);
    }
  }

  /** A misspelt directive is read as the shorter one it starts with, so it opens a block. */
  lemma MisspeltLineOpensBlock()
    ensures PragmaOf("#" + PREFIX + "disable-lines") == Some(Pragma(Disable, Only({"-lines"})))
  {
    hide *;
    MatchOfDirective("disable-lines");
    MisspeltDirective();
    assert Name(Disable) == "disable" by { DirectiveNames(); }
    MisspeltRest();
    OneRule("-lines");
    PragmaAtStart("#" + PREFIX + "disable-lines");
  }

  lemma MisspeltRest()
    ensures Dots("-lines") == "-lines" && Trim("-lines") == "-lines"
  {
    hide Dots, Trim;
    DotsOfPlain("-lines");
    TrimFixed("-lines");
  }

  lemma DirectiveNames()
    ensures Name(Disable) == "disable"
  {
  }

  lemma PragmaAtStart(text: string)
    requires MatchAt(text).Some?
    ensures PragmaOf(text) == Some(Pragma(MatchAt(text).value.0, RuleList(MatchAt(text).value.1)))
  {
    hide MatchAt, RuleList;
  }

  lemma {:induction false} DotsOfPlain(s: string)
    requires forall c | c in s :: !EndsLine(c)
    ensures Dots(s) == s
  {
    if s != "" {
      DotsOfPlain(s[1..]);
    }
  }
}
