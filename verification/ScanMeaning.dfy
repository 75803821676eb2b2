/**
 What the line scanner reports, told by the pieces a line is made of: strings, brackets, other
 characters, and what ends the line.
 */
module ScanMeaning {
  import opened JsText
  import opened FormatScan

  // ----- The pieces of a line -----

  /** A character of a basic string, or a backslash with the character behind it. */
  datatype Unit = One(c: char) | Pair(c: char)

  datatype Token = Plain(c: char) | Basic(units: seq<Unit>) | Literal(text: string) | Open(c: char) | Close(c: char)

  /** What ends a line: nothing, a comment, or a multi-line string that does not close on it. */
  datatype Tail = Nothing | Comment(text: string) | OpensBasic(units: seq<Unit>, slash: bool) | OpensLiteral(text: string)

  function UnitText(u: Unit): string {
    match u case One(c) => [c] case Pair(c) => ['\\', c]
  }

  function Units(us: seq<Unit>): string {
    if us == [] then "" else UnitText(us[0]) + Units(us[1..])
  }

  function Text(t: Token): (s: string)
    ensures s != ""
  {
    match t
    case Plain(c) => [c]
    case Basic(units) => "\"" + Units(units) + "\""
    case Literal(text) => "'" + text + "'"
    case Open(c) => [c]
    case Close(c) => [c]
  }

  function Texts(ts: seq<Token>): string {
    if ts == [] then "" else Text(ts[0]) + Texts(ts[1..])
  }

  /** The content of a multi-line basic string; a backslash can end the line. */
  function Inner(us: seq<Unit>, slash: bool): string {
    Units(us) + if slash then "\\" else ""
  }

  function TailText(t: Tail): string {
    match t
    case Nothing => ""
    case Comment(text) => "#" + text
    case OpensBasic(units, slash) => "\"\"\"" + Inner(units, slash)
    case OpensLiteral(text) => "'''" + text
  }

  predicate IsToken(t: Token) {
    match t
    case Plain(c) => c !in "\"'#[]{}"
    case Basic(units) => forall u | u in units && u.One? :: u.c != '"' && u.c != '\\'
    case Literal(text) => '\'' !in text
    case Open(c) => c == '[' || c == '{'
    case Close(c) => c == ']' || c == '}'
  }

  predicate IsString(t: Token) {
    t.Basic? || t.Literal?
  }

  predicate NoSlash(us: seq<Unit>) {
    forall u | u in us && u.One? :: u.c != '\\'
  }

  /** No three quotes in a row, none of them escaped. */
  predicate StaysBasic(us: seq<Unit>) {
    && NoSlash(us)
    && forall i | 0 <= i < |us| - 2 :: us[i] != One('"') || us[i + 1] != One('"') || us[i + 2] != One('"')
  }

  predicate StaysLiteral(text: string) {
    forall i | 0 <= i < |text| - 2 :: text[i] != '\'' || text[i + 1] != '\'' || text[i + 2] != '\''
  }

  predicate IsTail(t: Tail) {
    match t
    case Nothing => true
    case Comment(_) => true
    case OpensBasic(units, _) => StaysBasic(units)
    case OpensLiteral(text) => StaysLiteral(text)
  }

  /** A line in which no string touches a quote behind it. */
  predicate IsLine(ts: seq<Token>, tail: Tail) {
    && (forall t | t in ts :: IsToken(t)) && IsTail(tail)
    && forall i | 0 <= i < |ts| && IsString(ts[i]) :: NoQuoteFirst(Texts(ts[i + 1..]) + TailText(tail))
  }

  // ----- What is reported -----

  /** Brackets open behind the pieces, `d` of them in front; one too many is ignored. */
  function Depth(ts: seq<Token>, d: nat): nat {
    if ts == [] then d
    else Depth(ts[1..], if ts[0].Open? then d + 1 else if ts[0].Close? && d > 0 then d - 1 else d)
  }

  /** The column of the first `=` outside brackets and strings, or -1. */
  function Separator(ts: seq<Token>, d: nat, pos: nat): int {
    if ts == [] then -1
    else if ts[0] == Plain('=') && d == 0 then pos
    else Separator(ts[1..], Depth([ts[0]], d), pos + |Text(ts[0])|)
  }

  function KindOf(tail: Tail): Multiline {
    match tail case OpensBasic(_, _) => InBasic case OpensLiteral(_) => InLiteral case _ => Outside
  }

  // ----- Strings -----

  lemma {:induction false} UnitsClose(pre: string, us: seq<Unit>, more: string)
    requires IsToken(Basic(us))
    ensures var s := pre + Units(us) + "\"" + more;
      BasicCloses(s, |pre|) && BasicEnd(s, |pre|) == |pre| + |Units(us)| + 1
    decreases |us|
  {
    var s := pre + Units(us) + "\"" + more;
    if us == [] {
      assert s[|pre|] == '"';
    } else {
      var u, rest := us[0], us[1..];
      var head := UnitText(u);
      assert u in us && forall x | x in rest :: x in us;
      assert pre + head + Units(rest) + "\"" + more == s;
      assert s[|pre|] == head[0];
      UnitsClose(pre + head, rest, more);
    }
  }

  lemma {:induction false} LiteralSkipped(pre: string, t: string, more: string)
    requires '\'' !in t
    ensures var s := pre + t + "'" + more; LiteralCloses(s, |pre|) && LiteralEnd(s, |pre|) == |pre| + |t| + 1
    decreases |t|
  {
    var s := pre + t + "'" + more;
    if t == "" {
      assert s[|pre|] == '\'';
    } else {
      assert s[|pre|] == t[0];
      assert pre + [t[0]] + t[1..] + "'" + more == s;
      LiteralSkipped(pre + [t[0]], t[1..], more);
    }
  }

  lemma FirstUnit(us: seq<Unit>)
    requires IsToken(Basic(us))
    ensures if us == [] then Units(us) == "" else Units(us) != "" && Units(us)[0] != '"'
  {
    if us != [] {
      assert us[0] in us;
    }
  }

  lemma BasicToken(us: seq<Unit>, rest: string)
    requires IsToken(Basic(us)) && NoQuoteFirst(rest)
    ensures var s := Text(Basic(us)) + rest;
      BasicCloses(s, 1) && BasicEnd(s, 1) == |Text(Basic(us))| && !Triple(s, '"') && s[0] == '"'
  {
    var s := Text(Basic(us)) + rest;
    assert s == "\"" + Units(us) + "\"" + rest;
    hide Units, BasicCloses, BasicEnd;
    UnitsClose("\"", us, rest);
    FirstUnit(us);
    if us == [] {
      assert s == "\"\"" + rest;
    } else {
      assert s[1] == Units(us)[0];
    }
  }

  lemma LiteralToken(t: string, rest: string)
    requires '\'' !in t && NoQuoteFirst(rest)
    ensures var s := Text(Literal(t)) + rest;
      LiteralCloses(s, 1) && LiteralEnd(s, 1) == |t| + 2 && LiteralContent(s) == t && !Triple(s, '\'') && s[0] == '\''
  {
    var s := Text(Literal(t)) + rest;
    assert s == "'" + t + "'" + rest;
    hide LiteralCloses, LiteralEnd;
    LiteralSkipped("'", t, rest);
    assert s[1..|t| + 1] == t;
    if t == "" {
      assert s == "''" + rest;
    } else {
      assert s[1] == t[0];
    }
  }

  // ----- The pieces of a line, outside strings -----

  /** The state behind a piece that starts at column `pos`. */
  function Behind(t: Token, pos: nat, st: Walked): Walked {
    match t
    case Open(_) => st.(depth := st.depth + 1)
    case Close(_) => st.(depth := if st.depth == 0 then 0 else st.depth - 1)
    case Plain(c) => if c == '=' && st.eq < 0 && st.depth == 0 then st.(eq := pos) else st
    case _ => st
  }

  lemma BehindMeans(t: Token, pos: nat, st: Walked)
    ensures Behind(t, pos, st) == st.(depth := Depth([t], st.depth),
      eq := if st.eq < 0 && t == Plain('=') && st.depth == 0 then pos else st.eq)
  {
    assert [t][1..] == [];
  }

  lemma CharStepped(t: Token, rest: string, pos: nat, st: Walked)
    requires IsToken(t) && !IsString(t) && st.multiline == Outside
    ensures StepAt(Text(t) + rest, pos, st) == Go(|Text(t)|, Behind(t, pos, st))
  {
    var s := Text(t) + rest;
    assert s[0] == Text(t)[0];
    if t.Plain? {
      assert t.c != '"' && t.c != '\'' && t.c != '#' && t.c != '[' && t.c != ']' && t.c != '{' && t.c != '}';
    }
  }

  lemma StringStepped(t: Token, rest: string, pos: nat, st: Walked)
    requires IsToken(t) && IsString(t) && NoQuoteFirst(rest) && st.multiline == Outside
    ensures StepAt(Text(t) + rest, pos, st) == Go(|Text(t)|, st)
  {
    hide Text, BasicCloses, LiteralCloses, BasicEnd, LiteralEnd;
    if t.Basic? {
      BasicToken(t.units, rest);
    } else {
      LiteralToken(t.text, rest);
      LiteralLength(t.text);
    }
  }

  lemma LiteralLength(t: string)
    ensures |Text(Literal(t))| == |t| + 2
  {
  }

  lemma TokenWalked(t: Token, rest: string, pos: nat, st: Walked)
    requires IsToken(t) && (IsString(t) ==> NoQuoteFirst(rest)) && st.multiline == Outside
    ensures Walk(Text(t) + rest, pos, st) == Walk(rest, pos + |Text(t)|, Behind(t, pos, st))
  {
    hide StepAt, Text, IsToken, NoQuoteFirst;
    assert (Text(t) + rest)[|Text(t)|..] == rest;
    if IsString(t) {
      StringStepped(t, rest, pos, st);
    } else {
      CharStepped(t, rest, pos, st);
    }
  }

  // ----- Inside multi-line strings -----

  lemma {:induction false} BasicGoesOn(us: seq<Unit>, slash: bool, pos: nat, st: Walked)
    requires StaysBasic(us) && st.multiline == InBasic
    ensures var r := Walk(Inner(us, slash), pos, st);
      r.depth == st.depth && r.multiline == InBasic && r.eq == st.eq && r.comment == st.comment
    decreases |us|
  {
    var s := Inner(us, slash);
    if us == [] {
      assert s == if slash then "\\" else "";
      assert slash ==> s[1..] == "";
    } else {
      var u, rest := us[0], us[1..];
      var head := UnitText(u);
      StaysBehind(us);
      assert s == head + Inner(rest, slash) && s[|head|..] == Inner(rest, slash);
      NoTripleHere(us, slash);
      BasicGoesOn(rest, slash, pos + |head|, st);
      assert StepAt(s, pos, st) == Go(|head|, st);
    }
  }

  lemma StaysBehind(us: seq<Unit>)
    requires StaysBasic(us) && us != []
    ensures StaysBasic(us[1..])
  {
    var rest := us[1..];
    forall i | 0 <= i < |rest| - 2 ensures rest[i] != One('"') || rest[i + 1] != One('"') || rest[i + 2] != One('"') {
      assert us[i + 1] == rest[i] && us[i + 2] == rest[i + 1] && us[i + 3] == rest[i + 2];
    }
  }

  lemma UnitsNext(us: seq<Unit>, tail: string)
    requires us != []
    ensures Units(us) + tail == UnitText(us[0]) + (Units(us[1..]) + tail)
  {
  }

  /** A unit other than a bare quote among the first three leaves no three quotes in front. */
  lemma {:induction false} NotThree(us: seq<Unit>, tail: string, k: nat)
    requires NoSlash(us) && k < |us| && us[k] != One('"')
    ensures var s := Units(us) + tail; exists i | 0 <= i <= k :: i < |s| && s[i] != '"'
    decreases k
  {
    hide Units;
    var s := Units(us) + tail;
    UnitsNext(us, tail);
    assert us[0] in us;
    if us[0] != One('"') {
      assert s[0] == UnitText(us[0])[0] && s[0] != '"';
    } else {
      var rest := us[1..];
      assert forall u | u in rest :: u in us;
      NotThree(rest, tail, k - 1);
      var t := Units(rest) + tail;
      assert s == "\"" + t;
      var i :| 0 <= i <= k - 1 && i < |t| && t[i] != '"';
      assert s[i + 1] == t[i];
    }
  }

  lemma NoUnits(tail: string)
    ensures Units([]) + tail == tail
  {
  }

  lemma NoTripleHere(us: seq<Unit>, slash: bool)
    requires StaysBasic(us) && us != []
    ensures !Triple(Inner(us, slash), '"')
  {
    hide Units;
    var tail := if slash then "\\" else "";
    if |us| >= 3 {
      assert us[0] != One('"') || us[0 + 1] != One('"') || us[0 + 2] != One('"');
      NotThree(us, tail, if us[0] != One('"') then 0 else if us[1] != One('"') then 1 else 2);
    } else if k :| 0 <= k < |us| && us[k] != One('"') {
      NotThree(us, tail, k);
    } else {
      UnitsNext(us, tail);
      NoUnits(tail);
      if |us| == 1 {
        assert us[1..] == [];
      } else {
        UnitsNext(us[1..], tail);
        assert us[1..][1..] == [];
      }
    }
  }

  lemma {:induction false} LiteralGoesOn(t: string, pos: nat, st: Walked)
    requires StaysLiteral(t) && st.multiline == InLiteral
    ensures var r := Walk(t, pos, st);
      r.depth == st.depth && r.multiline == InLiteral && r.eq == st.eq && r.comment == st.comment
    decreases |t|
  {
    if t != "" {
      LiteralBehind(t);
      LiteralGoesOn(t[1..], pos + 1, st);
    }
  }

  lemma TailWalked(tail: Tail, pos: nat, st: Walked)
    requires IsTail(tail) && st.multiline == Outside
    ensures var r := Walk(TailText(tail), pos, st);
      && r.depth == st.depth && r.multiline == KindOf(tail) && r.eq == st.eq
      && r.comment == if tail.Comment? && st.depth == 0 then pos else st.comment
  {
    hide StaysBasic, StaysLiteral;
    match tail {
      case Nothing =>
      case Comment(text) =>
      case OpensBasic(units, slash) =>
        var s := TailText(tail);
        assert s[3..] == Inner(units, slash) && Triple(s, '"');
        BasicGoesOn(units, slash, pos + 3, st.(multiline := InBasic));
      case OpensLiteral(text) =>
        var s := TailText(tail);
        assert s[3..] == text && Triple(s, '\'');
        LiteralGoesOn(text, pos + 3, st.(multiline := InLiteral));
    }
  }

  // ----- Main results -----

  lemma LineBehind(ts: seq<Token>, tail: Tail)
    requires IsLine(ts, tail) && ts != []
    ensures IsToken(ts[0]) && IsLine(ts[1..], tail)
    ensures IsString(ts[0]) ==> NoQuoteFirst(Texts(ts[1..]) + TailText(tail))
  {
    hide NoQuoteFirst, IsToken, IsTail, Texts;
    var rest := ts[1..];
    assert ts[0] in ts && ts[0 + 1..] == rest;
    forall t | t in rest ensures IsToken(t) {
      assert t in ts;
    }
    forall i | 0 <= i < |rest| && IsString(rest[i]) ensures NoQuoteFirst(Texts(rest[i + 1..]) + TailText(tail)) {
      assert ts[i + 1] == rest[i] && ts[i + 1 + 1..] == rest[i + 1..];
    }
  }

  lemma {:induction false} PiecesWalked(ts: seq<Token>, tail: Tail, pos: nat, st: Walked)
    requires IsLine(ts, tail) && st.multiline == Outside && st.comment == -1
    ensures var r, eq := Walk(Texts(ts) + TailText(tail), pos, st), Separator(ts, st.depth, pos);
      && r.depth == Depth(ts, st.depth) && r.multiline == KindOf(tail)
      && r.eq == (if st.eq < 0 && eq >= 0 then eq else st.eq)
      && r.comment == if tail.Comment? && r.depth == 0 then pos + |Texts(ts)| else -1
    decreases |ts|
  {
    hide IsToken, Text, TailText, Walk, IsTail, NoQuoteFirst, IsLine, IsString;
    if ts == [] {
      LineHasTail(ts, tail);
      TailWalked(tail, pos, st);
      assert Texts(ts) + TailText(tail) == TailText(tail);
    } else {
      var rest := Texts(ts[1..]) + TailText(tail);
      assert Texts(ts) + TailText(tail) == Text(ts[0]) + rest;
      LineBehind(ts, tail);
      TokenWalked(ts[0], rest, pos, st);
      BehindMeans(ts[0], pos, st);
      PiecesWalked(ts[1..], tail, pos + |Text(ts[0])|, Behind(ts[0], pos, st));
    }
  }

  /**
   The scanner counts the brackets of a line, finds the first `=` outside brackets and strings,
   finds the comment if no bracket is open in front of it, and knows which multi-line string is
   left open; by either rule of closing quotes.
   */
  lemma LineMeans(ts: seq<Token>, tail: Tail, depth: nat, rule: ClosingRule)
    requires IsLine(ts, tail)
    ensures var r := Walk(Texts(ts) + TailText(tail), 0, Start(rule).(depth := depth));
      && r.depth == Depth(ts, depth) && r.multiline == KindOf(tail)
      && r.eq == Separator(ts, depth, 0)
      && r.comment == if tail.Comment? && r.depth == 0 then |Texts(ts)| else -1
  {
    hide IsLine, Walk, Texts, TailText, Depth;
    SeparatorColumn(ts, depth, 0);
    PiecesWalked(ts, tail, 0, Start(rule).(depth := depth));
  }

  lemma {:induction false} SeparatorColumn(ts: seq<Token>, d: nat, pos: nat)
    ensures Separator(ts, d, pos) >= -1
    decreases |ts|
  {
    hide Depth, Text;
    if ts != [] {
      SeparatorColumn(ts[1..], Depth([ts[0]], d), pos + |Text(ts[0])|);
    }
  }

  lemma LineHasTail(ts: seq<Token>, tail: Tail)
    requires IsLine(ts, tail)
    ensures IsTail(tail)
  {
  }

  /** Inside a multi-line basic string nothing is found before three bare quotes in a row, and those close it. */
  lemma {:induction false} BasicEndsAtThree(us: seq<Unit>, rest: string, pos: nat, st: Walked)
    requires StaysBasic(us) && (us != [] ==> us[|us| - 1] != One('"')) && st.multiline == InBasic
    requires NoQuoteFirst(rest)
    ensures Walk(Units(us) + ("\"\"\"" + rest), pos, st)
         == Walk(rest, pos + |Units(us)| + 3, st.(multiline := Outside))
    decreases |us|
  {
    hide Walk, StaysBasic, NoQuoteFirst, Units;
    var tail := "\"\"\"" + rest;
    if us == [] {
      NoUnits(tail);
      NoUnits("");
      assert tail == ['"', '"', '"'] + rest;
      ThreeQuotes(rest, '"', pos, st);
    } else {
      StaysBehind(us);
      assert us[1..] != [] ==> us[1..][|us| - 2] == us[|us| - 1];
      BasicEndsAtThree(us[1..], rest, pos + |UnitText(us[0])|, st);
      UnitWalked(us, tail, pos, st);
      UnitsNext(us, "");
    }
  }

  lemma ThreeQuotes(rest: string, q: char, pos: nat, st: Walked)
    requires NoQuoteFirst(rest) && st.multiline != Outside && q == if st.multiline == InBasic then '"' else '\''
    ensures Walk([q, q, q] + rest, pos, st) == Walk(rest, pos + 3, st.(multiline := Outside))
  {
    var s := [q, q, q] + rest;
    assert s[3..] == rest;
    assert ClosingQuotes(s, q, st.closing) == 3;
  }

  lemma UnitWalked(us: seq<Unit>, tail: string, pos: nat, st: Walked)
    requires StaysBasic(us) && us != [] && us[|us| - 1] != One('"') && st.multiline == InBasic
    ensures Walk(Units(us) + tail, pos, st) == Walk(Units(us[1..]) + tail, pos + |UnitText(us[0])|, st)
  {
    hide Units, Walk, StepAt;
    var s := Units(us) + tail;
    UnitsNext(us, tail);
    var k := SomeOther(us);
    NotThree(us, tail, k);
    assert us[0] in us;
    StepOfUnit(us[0], Units(us[1..]) + tail, pos, st);
  }

  lemma SomeOther(us: seq<Unit>) returns (k: nat)
    requires StaysBasic(us) && us != [] && us[|us| - 1] != One('"')
    ensures k < 3 && k < |us| && us[k] != One('"')
  {
    k := if us[0] != One('"') then 0 else if us[1] != One('"') then 1 else 2;
    assert k == 2 ==> us[0] != One('"') || us[0 + 1] != One('"') || us[0 + 2] != One('"');
  }

  lemma StepOfUnit(u: Unit, rest: string, pos: nat, st: Walked)
    requires (u.One? ==> u.c != '\\') && !Triple(UnitText(u) + rest, '"') && st.multiline == InBasic
    ensures Walk(UnitText(u) + rest, pos, st) == Walk(rest, pos + |UnitText(u)|, st)
  {
    var s := UnitText(u) + rest;
    assert s[|UnitText(u)|..] == rest;
    assert StepAt(s, pos, st) == Go(|UnitText(u)|, st);
  }

  /** The same for a multi-line literal string, in which nothing is escaped. */
  lemma {:induction false} LiteralEndsAtThree(t: string, rest: string, pos: nat, st: Walked)
    requires StaysLiteral(t) && (t != "" ==> t[|t| - 1] != '\'') && st.multiline == InLiteral && NoQuoteFirst(rest)
    ensures Walk(t + ("'''" + rest), pos, st) == Walk(rest, pos + |t| + 3, st.(multiline := Outside))
    decreases |t|
  {
    hide Walk, StaysLiteral, NoQuoteFirst;
    var tail := "'''" + rest;
    if t == "" {
      assert t + tail == ['\'', '\'', '\''] + rest;
      ThreeQuotes(rest, '\'', pos, st);
    } else {
      LiteralBehind(t);
      LiteralEndsAtThree(t[1..], rest, pos + 1, st);
      LiteralStepped(t, tail, pos, st);
    }
  }

  lemma LiteralNotYet(t: string, tail: string, pos: nat, st: Walked)
    requires StaysLiteral(t) && t != "" && t[|t| - 1] != '\'' && st.multiline == InLiteral
    ensures StepAt(t + tail, pos, st) == Go(1, st)
  {
    assert t[0] == '\'' && |t| > 2 ==> t[0 + 1] != '\'' || t[0 + 2] != '\'';
  }

  lemma LiteralStepped(t: string, tail: string, pos: nat, st: Walked)
    requires StaysLiteral(t) && t != "" && t[|t| - 1] != '\'' && st.multiline == InLiteral
    ensures Walk(t + tail, pos, st) == Walk(t[1..] + tail, pos + 1, st)
  {
    hide StepAt, StaysLiteral;
    LiteralNotYet(t, tail, pos, st);
    assert (t + tail)[1..] == t[1..] + tail;
  }

  lemma LiteralBehind(t: string)
    requires StaysLiteral(t) && t != ""
    ensures StaysLiteral(t[1..])
  {
    var rest := t[1..];
    forall i | 0 <= i < |rest| - 2 ensures rest[i] != '\'' || rest[i + 1] != '\'' || rest[i + 2] != '\'' {
      assert t[i + 1] == rest[i] && t[i + 2] == rest[i + 1] && t[i + 3] == rest[i + 2];
    }
  }

  // ----- The quote rewriter -----

  function Escapes(text: string): seq<Unit> {
    if text == "" then []
    else [if text[0] == '\\' || text[0] == '"' then Pair(text[0]) else One(text[0])] + Escapes(text[1..])
  }

  /** A literal string in its basic form; every other piece as it is. */
  function InBasicForm(t: Token): Token {
    if t.Literal? then Basic(Escapes(t.text)) else t
  }

  function AllInBasicForm(ts: seq<Token>): (r: seq<Token>)
    ensures |r| == |ts| && forall i | 0 <= i < |r| :: r[i] == InBasicForm(ts[i])
  {
    seq(|ts|, i requires 0 <= i < |ts| => InBasicForm(ts[i]))
  }

  lemma {:induction false} EscapesText(text: string)
    ensures Units(Escapes(text)) == Escaped(text)
  {
    if text != "" {
      EscapesText(text[1..]);
      assert Escapes(text)[1..] == Escapes(text[1..]);
      EscapedHead(text);
    }
  }

  lemma TokenRewritten(t: Token, rest: string)
    requires IsToken(t) && (IsString(t) ==> NoQuoteFirst(rest))
    ensures NormalizeQuotes(Text(t) + rest) == Text(InBasicForm(t)) + NormalizeQuotes(rest)
  {
    var s := Text(t) + rest;
    assert s[|Text(t)|..] == rest && s[..|Text(t)|] == Text(t) && s[0] == Text(t)[0];
    match t {
      case Basic(us) =>
        BasicToken(us, rest);
      case Literal(x) =>
        LiteralToken(x, rest);
        EscapesText(x);
      case Plain(c) =>
        assert c != '"' && c != '\'' && c != '#';
      case _ =>
    }
  }

  lemma FirstText(ts: seq<Token>, tail: Tail)
    requires ts != []
    ensures Texts(ts) + TailText(tail) == Text(ts[0]) + (Texts(ts[1..]) + TailText(tail))
  {
    hide Text, TailText;
  }

  /** Rewriting the quotes of a line writes each literal string in its basic form and changes nothing else. */
  lemma {:induction false} RewritingMeans(ts: seq<Token>, tail: Tail)
    requires IsLine(ts, tail)
    ensures NormalizeQuotes(Texts(ts) + TailText(tail)) == Texts(AllInBasicForm(ts)) + TailText(tail)
    decreases |ts|
  {
    hide IsToken, Text, IsTail, NoQuoteFirst, IsLine, IsString, InBasicForm, NormalizeQuotes, TailText, AllInBasicForm;
    if ts == [] {
      TailKept(tail);
      assert AllInBasicForm(ts) == [];
      assert Texts(ts) + TailText(tail) == TailText(tail);
    } else {
      hide Texts;
      var rest := Texts(ts[1..]) + TailText(tail);
      FirstText(ts, tail);
      LineBehind(ts, tail);
      TokenRewritten(ts[0], rest);
      RewritingMeans(ts[1..], tail);
      assert AllInBasicForm(ts)[1..] == AllInBasicForm(ts[1..]);
      FirstText(AllInBasicForm(ts), tail);
    }
  }

  lemma TailKept(tail: Tail)
    ensures NormalizeQuotes(TailText(tail)) == TailText(tail)
  {
  }
}
