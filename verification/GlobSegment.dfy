/**
 `segmentRegex` of `src/glob.ts`: the regular expression it writes accepts
 exactly the names the glob segment stands for.
 */
module GlobSegment {
  import opened JsText
  import opened Wrappers

  datatype Range = Range(lo: char, hi: char)

  // ----- What a segment means -----

  /** `*`, `?`, `[...]` and everything else. */
  datatype Token = AnyRun | AnyChar | OneOf(negated: bool, body: string) | Literal(c: char)

  /** The text in front of the first `]`, if there is one. */
  function ClassBody(s: string): Option<string> {
    if s == "" then None
    else if s[0] == ']' then Some("")
    else
      match ClassBody(s[1..])
      case None => None
      case Some(body) => Some([s[0]] + body)
  }

  lemma {:induction false} ClassBodySplit(s: string)
    requires ClassBody(s).Some?
    ensures var body := ClassBody(s).value;
      |body| < |s| && s == body + "]" + s[|body| + 1..] && ']' !in body
  {
    if s[0] != ']' {
      ClassBodySplit(s[1..]);
      var body := ClassBody(s[1..]).value;
      var tail := s[1..][|body| + 1..];
      assert tail == s[|body| + 2..] && s == [s[0]] + s[1..];
      assert s[1..] == body + "]" + tail;
      Regroup([s[0]], body, "]");
      Regroup([s[0]], body + "]", tail);
    }
  }

  function SkipStars(s: string): (r: string)
    ensures |r| <= |s|
  {
    if s != "" && s[0] == '*' then SkipStars(s[1..]) else s
  }

  function ClassToken(body: string): Token {
    if body != "" && (body[0] == '!' || body[0] == '^') then OneOf(true, body[1..]) else OneOf(false, body)
  }

  function Tokens(segment: string): seq<Token>
    decreases |segment|
  {
    if segment == "" then []
    else
      var rest := segment[1..];
      match segment[0]
      case '*' => [AnyRun] + Tokens(SkipStars(rest))
      case '?' => [AnyChar] + Tokens(rest)
      case '[' =>
        (match ClassBody(rest)
         case None => [Literal('[')] + Tokens(rest)
         case Some(body) => ClassBodySplit(rest); [ClassToken(body)] + Tokens(rest[|body| + 1..]))
      case c => [Literal(c)] + Tokens(rest)
  }

  /** `a-z` is a range, any other character stands for itself; a descending range is an error. */
  function Ranges(body: string): Option<seq<Range>>
    decreases |body|
  {
    if body == "" then Some([])
    else if |body| >= 3 && body[1] == '-' then
      if body[0] > body[2] then None else Cons(Range(body[0], body[2]), Ranges(body[3..]))
    else Cons(Range(body[0], body[0]), Ranges(body[1..]))
  }

  function Cons<T>(x: T, rest: Option<seq<T>>): Option<seq<T>> {
    match rest
    case None => None
    case Some(xs) => Some([x] + xs)
  }

  predicate InRanges(c: char, ranges: seq<Range>) {
    exists r | r in ranges :: r.lo <= c <= r.hi
  }

  /** A class body names the characters between the ends of its ranges, and its other characters. */
  lemma RangesMean(lo: char, hi: char, rest: string)
    ensures lo > hi ==> Ranges([lo, '-', hi] + rest) == None
    ensures lo <= hi && Ranges(rest).Some? ==>
      Ranges([lo, '-', hi] + rest).Some? &&
      forall c :: InRanges(c, Ranges([lo, '-', hi] + rest).value) <==> lo <= c <= hi || InRanges(c, Ranges(rest).value)
    ensures Ranges(rest).Some? && !(|rest| >= 2 && rest[0] == '-') ==>
      Ranges([lo] + rest).Some? &&
      forall c :: InRanges(c, Ranges([lo] + rest).value) <==> c == lo || InRanges(c, Ranges(rest).value)
    ensures Ranges("") == Some([]) && forall c :: !InRanges(c, [])
  {
    hide InRanges;
    var s, t := [lo, '-', hi] + rest, [lo] + rest;
    assert s[3..] == rest && t[1..] == rest;
    if Ranges(rest).Some? {
      MoreRanges(Range(lo, hi), Ranges(rest).value);
      MoreRanges(Range(lo, lo), Ranges(rest).value);
    }
    NoRanges();
  }

  lemma MoreRanges(r: Range, rest: seq<Range>)
    ensures forall c :: InRanges(c, [r] + rest) <==> r.lo <= c <= r.hi || InRanges(c, rest)
  {
    forall c ensures InRanges(c, [r] + rest) <==> r.lo <= c <= r.hi || InRanges(c, rest) {
      assert r in [r] + rest;
    }
  }

  lemma NoRanges()
    ensures forall c :: !InRanges(c, [])
  {
  }

  /** A class ends at the first closing bracket; without one the opening bracket is a character. */
  lemma {:induction false} ClassBodyMeans(s: string)
    ensures ClassBody(s).None? <==> ']' !in s
    ensures ClassBody(s).Some? ==> ']' !in ClassBody(s).value && ClassBody(s).value + "]" <= s
  {
    if s != "" && s[0] != ']' {
      ClassBodyMeans(s[1..]);
      assert s == [s[0]] + s[1..];
    }
  }

  predicate TokenValid(t: Token) {
    t.OneOf? ==> Ranges(t.body).Some?
  }

  /** Whether one name character fits a one-character token. */
  predicate Fits(t: Token, c: char)
    requires TokenValid(t)
  {
    match t
    case AnyRun => c != '/'
    case AnyChar => c != '/'
    case OneOf(negated, body) => InRanges(c, Ranges(body).value) != negated
    case Literal(l) => c == l
  }

  predicate TokensValid(tokens: seq<Token>) {
    forall t | t in tokens :: TokenValid(t)
  }

  /** A name is accepted when it can be cut into one piece for each token. */
  predicate Accepts(tokens: seq<Token>, name: string)
    requires TokensValid(tokens)
  {
    if tokens == [] then name == ""
    else if tokens[0] == AnyRun then
      exists k | 0 <= k <= |name| :: (forall c | c in name[..k] :: c != '/') && Accepts(tokens[1..], name[k..])
    else name != "" && Fits(tokens[0], name[0]) && Accepts(tokens[1..], name[1..])
  }

  // ----- Regular expressions, as far as the compiler writes them -----

  /** One character of the subject: a literal, or a class. */
  datatype Atom = Char(c: char) | Class(negated: bool, ranges: seq<Range>)

  datatype Item = One(atom: Atom) | Star(atom: Atom)

  predicate IsSyntaxChar(c: char) {
    c in ".*+?^${}()|[]\\"
  }

  /** Reads the pattern between `^` and `$`; `None` is a SyntaxError. */
  function ParseRegex(source: string): Option<seq<Item>>
    decreases |source|, 0
  {
    if source == "" then Some([])
    else if source[0] == '\\' then
      if |source| >= 2 then Quantified(Char(source[1]), source[2..]) else None
    else if source[0] == '[' then
      var rest := source[1..];
      match ClassBody(rest)
      case None => None
      case Some(body) =>
        ClassBodySplit(rest);
        var negated := body != "" && body[0] == '^';
        match Ranges(if negated then body[1..] else body)
        case None => None
        case Some(ranges) => Quantified(Class(negated, ranges), rest[|body| + 1..])
    else if IsSyntaxChar(source[0]) then None
    else Quantified(Char(source[0]), source[1..])
  }

  /** An atom and the `*` that may follow it. */
  function Quantified(atom: Atom, rest: string): Option<seq<Item>>
    decreases |rest|, 1
  {
    if rest != "" && rest[0] == '*' then Cons(Star(atom), ParseRegex(rest[1..])) else Cons(One(atom), ParseRegex(rest))
  }

  predicate AtomFits(atom: Atom, c: char) {
    match atom
    case Char(l) => c == l
    case Class(negated, ranges) => InRanges(c, ranges) != negated
  }

  /** `new RegExp("^...$").test(s)`. */
  predicate RegexMatches(items: seq<Item>, s: string) {
    if items == [] then s == ""
    else
      match items[0]
      case One(atom) => s != "" && AtomFits(atom, s[0]) && RegexMatches(items[1..], s[1..])
      case Star(atom) =>
        exists k | 0 <= k <= |s| :: (forall c | c in s[..k] :: AtomFits(atom, c)) && RegexMatches(items[1..], s[k..])
  }

  // ----- The compiler -----

  /** `char.replace(/[.*+?^${}()|[\]\\]/g, '\\$&')` */
  function EscapeRegex(c: char): string {
    if IsSyntaxChar(c) then ['\\', c] else [c]
  }

  function TokenSource(body: string): string {
    if body != "" && body[0] == '!' then "[^" + body[1..] + "]" else "[" + body + "]"
  }

  /** What the loop of `segmentRegex` writes between `^` and `$`. */
  function RegexSource(segment: string): string
    decreases |segment|
  {
    if segment == "" then ""
    else
      var rest := segment[1..];
      match segment[0]
      case '*' => "[^/]*" + RegexSource(SkipStars(rest))
      case '?' => "[^/]" + RegexSource(rest)
      case '[' =>
        (match ClassBody(rest)
         case None => "\\[" + RegexSource(rest)
         case Some(body) => ClassBodySplit(rest); TokenSource(body) + RegexSource(rest[|body| + 1..]))
      case c => EscapeRegex(c) + RegexSource(rest)
  }

  const SLASH := Class(true, [Range('/', '/')])

  function TokenItem(t: Token): Item
    requires TokenValid(t)
  {
    match t
    case AnyRun => Star(SLASH)
    case AnyChar => One(SLASH)
    case OneOf(negated, body) => One(Class(negated, Ranges(body).value))
    case Literal(c) => One(Char(c))
  }

  function TokenItems(tokens: seq<Token>): (r: seq<Item>)
    requires TokensValid(tokens)
    ensures |r| == |tokens|
  {
    if tokens == [] then [] else [TokenItem(tokens[0])] + TokenItems(tokens[1..])
  }

  // ----- The compiler is correct -----

  lemma {:induction false} NoStarFirst(segment: string)
    ensures RegexSource(segment) == "" || RegexSource(segment)[0] != '*'
  {
    if segment != "" && segment[0] == '[' && ClassBody(segment[1..]).Some? {
      ClassBodySplit(segment[1..]);
    }
  }

  lemma {:induction false} ClassBodyOf(body: string, rest: string)
    requires ']' !in body
    ensures ClassBody(body + "]" + rest) == Some(body)
  {
    var s := body + "]" + rest;
    if body != "" {
      assert body[0] in body && s[0] == body[0];
      assert s[1..] == body[1..] + "]" + rest;
      ClassBodyOf(body[1..], rest);
      assert [body[0]] + body[1..] == body;
    }
  }

  lemma ParseBrackets(inner: string, rest: string)
    requires ']' !in inner
    ensures var negated := inner != "" && inner[0] == '^';
      ParseRegex("[" + inner + "]" + rest)
        == match Ranges(if negated then inner[1..] else inner)
           case None => None
           case Some(ranges) => Quantified(Class(negated, ranges), rest)
  {
    hide Ranges, Quantified, ClassBody;
    var source := "[" + inner + "]" + rest;
    assert source[0] == '[' && source[1..] == inner + "]" + rest;
    ClassBodyOf(inner, rest);
    assert (inner + "]" + rest)[|inner| + 1..] == rest;
  }

  lemma PlainItem(atom: Atom, rest: string)
    requires rest == "" || rest[0] != '*'
    ensures Quantified(atom, rest) == Cons(One(atom), ParseRegex(rest))
  {
    hide ParseRegex;
  }

  /** What the class written for `body` is read back as. */
  lemma {:induction false} ParseClass(body: string, rest: string)
    requires ']' !in body
    requires rest == "" || rest[0] != '*'
    ensures var t := ClassToken(body);
      ParseRegex(TokenSource(body) + rest)
        == match Ranges(t.body)
           case None => None
           case Some(ranges) => Cons(One(Class(t.negated, ranges)), ParseRegex(rest))
  {
    hide ParseRegex, Ranges, Quantified;
    var inner := if body != "" && body[0] == '!' then "^" + body[1..] else body;
    assert TokenSource(body) + rest == "[" + inner + "]" + rest;
    ParseBrackets(inner, rest);
    var t := ClassToken(body);
    if body != "" && body[0] == '!' {
      assert inner[1..] == body[1..];
    }
    if Ranges(t.body).Some? {
      PlainItem(Class(t.negated, Ranges(t.body).value), rest);
    }
  }

  lemma SlashRange()
    ensures Ranges("/") == Some([Range('/', '/')])
  {
    assert "/"[1..] == "";
    assert Ranges("") == Some([]) && [Range('/', '/')] + [] == [Range('/', '/')];
    assert Ranges("/") == Cons(Range('/', '/'), Ranges(""));
  }

  lemma {:induction false} ParseSlash(star: bool, rest: string)
    requires star || rest == "" || rest[0] != '*'
    ensures ParseRegex((if star then "[^/]*" else "[^/]") + rest)
         == Cons(if star then Star(SLASH) else One(SLASH), ParseRegex(rest))
  {
    hide ParseRegex, Ranges;
    var tail := (if star then "*" else "") + rest;
    assert (if star then "[^/]*" else "[^/]") + rest == "[" + "^/" + "]" + tail;
    ParseBrackets("^/", tail);
    assert "^/"[1..] == "/";
    SlashRange();
    if star {
      assert tail[0] == '*' && tail[1..] == rest;
    } else {
      assert tail == rest;
    }
  }

  lemma ParseLiteral(c: char, rest: string)
    requires rest == "" || rest[0] != '*'
    ensures ParseRegex(EscapeRegex(c) + rest) == Cons(One(Char(c)), ParseRegex(rest))
  {
    var source := EscapeRegex(c) + rest;
    if IsSyntaxChar(c) {
      assert source[1] == c && source[2..] == rest;
    } else {
      assert source[0] == c && source[1..] == rest;
    }
  }

  /**
   The written pattern parses to one item for each token, unless a class holds a descending
   range. A backslash would start an escape inside a class; `expandGlob` hands over none.
   */
  lemma {:induction false} CompileParses(segment: string)
    requires '\\' !in segment
    ensures if TokensValid(Tokens(segment))
            then ParseRegex(RegexSource(segment)) == Some(TokenItems(Tokens(segment)))
            else ParseRegex(RegexSource(segment)) == None
    decreases |segment|
  {
    hide ParseRegex, TokenSource, EscapeRegex, Ranges, ClassBody;
    if segment == "" {
      EmptyParses();
    } else {
      var rest := segment[1..];
      var after, t;
      if segment[0] == '*' {
        after, t := SkipStars(rest), AnyRun;
        ParseSlash(true, RegexSource(after));
      } else if segment[0] == '?' {
        after, t := rest, AnyChar;
        NoStarFirst(after);
        ParseSlash(false, RegexSource(after));
      } else if segment[0] == '[' && ClassBody(rest).Some? {
        ClassBodySplit(rest);
        var body := ClassBody(rest).value;
        after, t := rest[|body| + 1..], ClassToken(body);
        NoStarFirst(after);
        ParseClass(body, RegexSource(after));
      } else {
        after, t := rest, Literal(segment[0]);
        NoStarFirst(after);
        ParseLiteral(segment[0], RegexSource(after));
        BracketEscaped();
      }
      StarsAreFront(rest);
      CompileParses(after);
      ValidCons(t, Tokens(after));
    }
  }

  lemma {:induction false} StarsAreFront(s: string)
    ensures forall c | c in SkipStars(s) :: c in s
  {
    if s != "" && s[0] == '*' {
      StarsAreFront(s[1..]);
    }
  }

  lemma EmptyParses()
    ensures ParseRegex("") == Some([])
  {
  }

  lemma BracketEscaped()
    ensures EscapeRegex('[') == "\\["
  {
  }

  lemma ValidCons(t: Token, rest: seq<Token>)
    ensures TokensValid([t] + rest) <==> TokenValid(t) && TokensValid(rest)
    ensures TokensValid([t] + rest) ==> TokenItems([t] + rest) == [TokenItem(t)] + TokenItems(rest)
  {
    assert ([t] + rest)[1..] == rest;
    if TokensValid([t] + rest) {
      forall x | x in rest ensures TokenValid(x) { assert x in [t] + rest; }
      assert t in [t] + rest;
    }
  }

  lemma SlashFits(c: char)
    ensures AtomFits(SLASH, c) <==> c != '/'
  {
    if c == '/' { assert Range('/', '/') in SLASH.ranges; }
  }

  lemma {:induction false} ItemsAccept(tokens: seq<Token>, name: string)
    requires TokensValid(tokens)
    ensures RegexMatches(TokenItems(tokens), name) <==> Accepts(tokens, name)
    decreases |tokens|
  {
    hide AtomFits, Ranges;
    if tokens != [] {
      var t, rest, items := tokens[0], tokens[1..], TokenItems(tokens);
      assert items[1..] == TokenItems(rest);
      forall c { SlashFits(c); }
      if t == AnyRun {
        forall k | 0 <= k <= |name| ensures RegexMatches(TokenItems(rest), name[k..]) <==> Accepts(rest, name[k..]) {
          ItemsAccept(rest, name[k..]);
        }
      } else if name != "" {
        ItemsAccept(rest, name[1..]);
        ItemFits(t, name[0]);
      }
    }
  }

  lemma ItemFits(t: Token, c: char)
    requires TokenValid(t) && t != AnyRun
    ensures TokenItem(t).One? && (AtomFits(TokenItem(t).atom, c) <==> Fits(t, c))
  {
    SlashFits(c);
  }

  /** The names a segment stands for. */
  predicate SegmentAccepts(segment: string, name: string)
    requires TokensValid(Tokens(segment))
  {
    Accepts(Tokens(segment), name)
  }

  /** The compiled expression is valid exactly when every class is, and then tests for the segment's names. */
  lemma CompileCorrect(segment: string, name: string)
    requires '\\' !in segment
    ensures ParseRegex(RegexSource(segment)).Some? <==> TokensValid(Tokens(segment))
    ensures TokensValid(Tokens(segment)) ==>
      (RegexMatches(ParseRegex(RegexSource(segment)).value, name) <==> SegmentAccepts(segment, name))
  {
    CompileParses(segment);
    if TokensValid(Tokens(segment)) {
      ItemsAccept(Tokens(segment), name);
    }
  }

  // ----- The loop -----

  /** The text the loop writes for the token at the front of `s`, and how much of `s` it reads. */
  lemma {:induction false} SourceStep(s: string, n: nat, text: string)
    requires s != "" && 0 < n <= |s|
    requires match s[0]
      case '*' => text == "[^/]*" && s[n..] == SkipStars(s[1..])
      case '?' => text == "[^/]" && n == 1
      case '[' =>
        (match ClassBody(s[1..])
         case None => text == "\\[" && n == 1
         case Some(body) => text == TokenSource(body) && n == |body| + 2)
      case c => text == EscapeRegex(c) && n == 1
    ensures RegexSource(s) == text + RegexSource(s[n..])
  {
    hide TokenSource, EscapeRegex, ClassBody;
    if s[0] == '[' && ClassBody(s[1..]).Some? {
      ClassBodySplit(s[1..]);
      assert s[1..][|ClassBody(s[1..]).value| + 1..] == s[n..];
    }
  }

  lemma Written(source: string, segment: string, i: nat, n: nat, text: string)
    requires i < |segment| && 0 < n <= |segment| - i
    requires RegexSource(segment[i..]) == text + RegexSource(segment[i..][n..])
    requires source + RegexSource(segment[i..]) == RegexSource(segment)
    ensures source + text + RegexSource(segment[i + n..]) == RegexSource(segment)
  {
    hide RegexSource;
    assert segment[i..][n..] == segment[i + n..];
  }

  method SegmentRegex(segment: string) returns (regex: Option<seq<Item>>)
    requires '\\' !in segment
    ensures regex == ParseRegex(RegexSource(segment))
    ensures regex.Some? <==> TokensValid(Tokens(segment))
    ensures regex.Some? ==> forall name :: RegexMatches(regex.value, name) <==> SegmentAccepts(segment, name)
  {
    hide *;
    var source := "";
    var i := 0;
    assert segment[0..] == segment;
    while i < |segment|
      invariant 0 <= i <= |segment|
      invariant source + RegexSource(segment[i..]) == RegexSource(segment)
      decreases |segment| - i
    {
      var c := segment[i];
      var text, n := EscapeRegex(c), 1;
      if c == '*' {
        text := "[^/]*";
        n := Stars(segment[i..]);
      } else if c == '?' {
        text := "[^/]";
      } else if c == '[' {
        assert segment[i..][1..] == segment[i + 1..];
        var body := ClassBody(segment[i + 1..]);
        if body.None? {
          text := "\\[";
        } else {
          ClassBodySplit(segment[i + 1..]);
          text, n := TokenSource(body.value), |body.value| + 2;
        }
      }
      SourceStep(segment[i..], n, text);
      Written(source, segment, i, n, text);
      source := source + text;
      i := i + n;
    }
    assert segment[i..] == "";
    NothingWritten();
    regex := ParseRegex(source);
    assert source + "" == source;
    forall name
      ensures regex.Some? <==> TokensValid(Tokens(segment))
      ensures regex.Some? ==> (RegexMatches(regex.value, name) <==> SegmentAccepts(segment, name))
    {
      CompileCorrect(segment, name);
    }
    CompileCorrect(segment, "");
  }

  lemma NothingWritten()
    ensures RegexSource("") == ""
  {
  }

  /** `while (segment[i + 1] === '*') i++`: the length of the run of stars in front of `s`. */
  method Stars(s: string) returns (n: nat)
    requires s != "" && s[0] == '*'
    ensures 0 < n <= |s| && s[n..] == SkipStars(s[1..])
  {
    n := 1;
    while n < |s| && s[n] == '*'
      invariant 0 < n <= |s|
      invariant SkipStars(s[n..]) == SkipStars(s[1..])
    {
      assert s[n..][1..] == s[n + 1..];
      n := n + 1;
    }
  }
}
