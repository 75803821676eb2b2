/**
 The other half of `src/fix.ts`: `computeFixEdits` and `applyFixes`, which editors
 use. They locate the value once more, inside its quotes and without looking at the
 key's column, and write the replacement there as it is, without encoding it.
 */
module OffsetFix {
  import opened JsText
  import opened Wrappers
  import opened Splices
  import opened Fix
  import opened FixLines
  import opened BasicStrings
  import opened TomlStrings
  import opened FixTokens
  import FormatScan
  import FormatAgree
  import Sorting

  /** The range of a value inside its quotes. */
  datatype Place = Place(start: nat, end: nat)

  predicate IsQuote(c: char) {
    c == '"' || c == '\''
  }

  // ----- Where a value stands -----

  /** Where line `line` starts, when line 1 is the one that starts at `offset`. */
  function LineAt(s: string, line: nat, offset: nat): (a: Option<nat>)
    requires line >= 1 && offset <= |s|
    ensures a.Some? ==> a.value <= |s|
    decreases line
  {
    if line == 1 then Some(offset)
    else match Find(s, "\n", offset) case None => None case Some(nl) => LineAt(s, line - 1, nl + 1)
  }

  /** Where the line that starts at `a` ends, its line break excluded. */
  function LineStop(s: string, a: nat): (n: nat)
    requires a <= |s|
    ensures a <= n <= |s|
  {
    match Find(s, "\n", a) case None => |s| case Some(nl) => nl
  }

  function SkipBlanks(s: string, limit: nat, i: nat): (r: nat)
    requires limit <= |s|
    ensures i <= r && (r == i || r <= limit)
    decreases limit - i
  {
    if i < limit && IsBlank(s[i]) then SkipBlanks(s, limit, i + 1) else i
  }

  /** `findClosingQuote`, from the character after the opening quote. */
  function CloseOf(s: string, i: nat, quote: char): (r: Option<nat>)
    ensures r.Some? ==> i <= r.value < |s| && s[r.value] == quote
    decreases |s| - i
  {
    if i >= |s| then None
    else if quote == '"' && s[i] == '\\' then CloseOf(s, i + 2, quote)
    else if s[i] == quote then Some(i)
    else if s[i] == '\n' then None
    else CloseOf(s, i + 1, quote)
  }

  /** The first `#` from `i` on, or `limit`. */
  function CommentAt(s: string, limit: nat, i: nat): (r: nat)
    requires i <= limit <= |s|
    ensures i <= r <= limit
    decreases limit - i
  {
    if i < limit && s[i] != '#' then CommentAt(s, limit, i + 1) else i
  }

  function DropBlanks(s: string, i: nat, end: nat): (r: nat)
    requires i <= end <= |s|
    ensures i <= r <= end
    decreases end
  {
    if end > i && IsBlank(s[end - 1]) then DropBlanks(s, i, end - 1) else end
  }

  /** The value that starts at `i` on a line that ends at `limit`. */
  function PlaceAt(s: string, limit: nat, i: nat): (r: Option<Place>)
    requires i < limit <= |s|
    ensures r.Some? ==> i <= r.value.start <= r.value.end <= |s|
  {
    if IsQuote(s[i]) then
      match CloseOf(s, i + 1, s[i]) case None => None case Some(close) => Some(Place(i + 1, close))
    else
      var end := DropBlanks(s, i, CommentAt(s, limit, i));
      if end <= i then None else Some(Place(i, end))
  }

  /** The value on the line that starts at `a`. */
  function PlaceOnLine(s: string, a: nat): (r: Option<Place>)
    requires a <= |s|
    ensures r.Some? ==> a < r.value.start <= r.value.end <= |s|
  {
    var limit := LineStop(s, a);
    match Find(s, "=", a)
    case None => None
    case Some(eq) =>
      if eq > limit then None
      else
        var i := SkipBlanks(s, limit, eq + 1);
        if i >= limit then None else PlaceAt(s, limit, i)
  }

  function OffsetSpan(s: string, position: Position): (r: Option<Place>)
    ensures r.Some? ==> r.value.start <= r.value.end <= |s|
  {
    match LineAt(s, position.line, 0) case None => None case Some(a) => PlaceOnLine(s, a)
  }

  method OffsetOfLine(source: string, line: nat) returns (offset: Option<nat>)
    requires line >= 1
    ensures offset == LineAt(source, line, 0)
  {
    hide Find;
    var current: nat, a: nat := 1, 0;
    while current < line
      invariant current <= line && a <= |source|
      invariant LineAt(source, line - current + 1, a) == LineAt(source, line, 0)
    {
      var nl := Find(source, "\n", a);
      if nl.None? {
        return None;
      }
      a := nl.value + 1;
      current := current + 1;
    }
    return Some(a);
  }

  method FindClosingQuote(source: string, open: nat, quote: char) returns (close: Option<nat>)
    ensures close == CloseOf(source, open + 1, quote)
  {
    var i := open + 1;
    while i < |source|
      invariant CloseOf(source, i, quote) == CloseOf(source, open + 1, quote)
    {
      var ch := source[i];
      if quote == '"' && ch == '\\' {
        i := i + 2;
        continue;
      }
      if ch == quote {
        return Some(i);
      }
      if ch == '\n' {
        return None;
      }
      i := i + 1;
    }
    return None;
  }

  method OffsetValueSpan(source: string, position: Position) returns (place: Option<Place>)
    ensures place == OffsetSpan(source, position)
  {
    hide Find, LineAt, CloseOf;
    var lineStart := OffsetOfLine(source, position.line);
    if lineStart.None? {
      return None;
    }
    var lineEnd := LineStop(source, lineStart.value);
    var eq := Find(source, "=", lineStart.value);
    if eq.None? || eq.value > lineEnd {
      return None;
    }
    var i := eq.value + 1;
    while i < lineEnd && IsBlank(source[i])
      invariant SkipBlanks(source, lineEnd, i) == SkipBlanks(source, lineEnd, eq.value + 1)
    {
      i := i + 1;
    }
    if i >= lineEnd {
      return None;
    }
    var quote := source[i];
    if IsQuote(quote) {
      var closed := FindClosingQuote(source, i, quote);
      if closed.None? {
        return None;
      }
      return Some(Place(i + 1, closed.value));
    }
    var end := CommentAt(source, lineEnd, i);
    while end > i && IsBlank(source[end - 1])
      invariant i <= end <= lineEnd
      invariant DropBlanks(source, i, end) == DropBlanks(source, i, CommentAt(source, lineEnd, i))
    {
      end := end - 1;
    }
    if end <= i {
      return None;
    }
    return Some(Place(i, end));
  }

  // ----- The edits -----

  /** The edit one diagnostic asks for, if any. A diagnostic about the empty path asks for none. */
  function OffsetEdit(source: string, at: string -> Option<Position>, d: Diagnostic): (r: Option<Edit<()>>)
    ensures r.Some? ==> r.value.start <= r.value.end <= |source|
  {
    if d.fix.None? || d.path.None? || d.path.value == "" || at(d.path.value).None? then None
    else
      var place := OffsetSpan(source, at(d.path.value).value);
      if place.None? || source[place.value.start..place.value.end] == d.fix.value then None
      else Some(Edit(place.value.start, place.value.end, d.fix.value, ()))
  }

  function OffsetEdits(source: string, at: string -> Option<Position>, ds: seq<Diagnostic>): (edits: seq<Edit<()>>)
    ensures Within(edits, |source|)
    decreases |ds|
  {
    if ds == [] then []
    else
      var e := OffsetEdit(source, at, ds[|ds| - 1]);
      OffsetEdits(source, at, ds[..|ds| - 1]) + if e.Some? then [e.value] else []
  }

  /** `computeFixEdits`: the edits are in order, disjoint and inside the source. */
  method ComputeFixEdits(source: string, at: string -> Option<Position>, diagnostics: seq<Diagnostic>)
    returns (edits: seq<Edit<()>>)
    ensures edits == Kept(OffsetEdits(source, at, diagnostics)) && Ordered(edits, 0, |source|)
  {
    hide OffsetSpan, Kept;
    edits := [];
    for i := 0 to |diagnostics|
      invariant edits == OffsetEdits(source, at, diagnostics[..i])
    {
      var d := diagnostics[i];
      assert diagnostics[..i + 1][..i] == diagnostics[..i];
      if d.fix.Some? && d.path.Some? && d.path.value != "" && at(d.path.value).Some? {
        var span := OffsetValueSpan(source, at(d.path.value).value);
        if span.Some? && source[span.value.start..span.value.end] != d.fix.value {
          edits := edits + [Edit(span.value.start, span.value.end, d.fix.value, ())];
        }
      }
    }
    assert diagnostics[..|diagnostics|] == diagnostics;
    KeptIsOrdered(edits, |source|);
    edits := DedupeOverlaps(edits);
  }

  function ApplySpec(source: string, at: string -> Option<Position>, ds: seq<Diagnostic>): string {
    KeptIsOrdered(OffsetEdits(source, at, ds), |source|);
    Replaced(source, Kept(OffsetEdits(source, at, ds)), 0)
  }

  /** `applyFixes`. */
  method ApplyFixes(source: string, at: string -> Option<Position>, diagnostics: seq<Diagnostic>) returns (result: string)
    ensures result == ApplySpec(source, at, diagnostics)
  {
    hide OffsetEdits, Kept, Replaced;
    var edits := ComputeFixEdits(source, at, diagnostics);
    result := Apply(source, edits);
  }

  // ----- Reading a written value again -----

  /** No quote in `t` closes the string around it, and no line break ends it. */
  predicate Contained(t: string, q: char) {
    t == "" ||
    (if q == '"' && t[0] == '\\' then |t| >= 2 && Contained(t[2..], q)
     else t[0] != q && t[0] != '\n' && Contained(t[1..], q))
  }

  /** What can be written as it is where a value was, `before` being the character in front of it. */
  predicate Fits(before: char, t: string) {
    if IsQuote(before) then Contained(t, before)
    else
      && t != "" && !IsQuote(t[0]) && !IsBlank(t[0]) && !IsBlank(t[|t| - 1])
      && '#' !in t && '\n' !in t
  }

  /** The quote behind a text closes the string around it exactly when the text is contained. */
  lemma {:induction false} ClosesBehind(pre: string, t: string, q: char, rest: string)
    requires IsQuote(q)
    ensures CloseOf(pre + t + [q] + rest, |pre|, q) == Some(|pre| + |t|) <==> Contained(t, q)
    decreases |t|
  {
    var s := pre + t + [q] + rest;
    if t == "" {
      assert s[|pre|] == q;
    } else {
      assert s[|pre|] == t[0];
      if q == '"' && t[0] == '\\' {
        if |t| >= 2 {
          assert pre + t[..2] + t[2..] + [q] + rest == s;
          ClosesBehind(pre + t[..2], t[2..], q, rest);
        }
      } else if t[0] != q && t[0] != '\n' {
        assert pre + t[..1] + t[1..] + [q] + rest == s;
        ClosesBehind(pre + t[..1], t[1..], q, rest);
      }
    }
  }

  lemma {:induction false} BlanksShape(s: string, limit: nat, i: nat)
    requires limit <= |s|
    ensures var r := SkipBlanks(s, limit, i);
      (r < limit ==> !IsBlank(s[r])) && forall j | i <= j < r :: j < limit && IsBlank(s[j])
    decreases limit - i
  {
    if i < limit && IsBlank(s[i]) {
      BlanksShape(s, limit, i + 1);
    }
  }

  lemma {:induction false} CommentShape(s: string, limit: nat, i: nat)
    requires i <= limit <= |s|
    ensures var r := CommentAt(s, limit, i);
      (r < limit ==> s[r] == '#') && forall j | i <= j < r :: s[j] != '#'
    decreases limit - i
  {
    if i < limit && s[i] != '#' {
      CommentShape(s, limit, i + 1);
    }
  }

  lemma {:induction false} DropShape(s: string, i: nat, end: nat)
    requires i <= end <= |s|
    ensures var r := DropBlanks(s, i, end);
      (r > i ==> !IsBlank(s[r - 1])) && forall j | r <= j < end :: IsBlank(s[j])
    decreases end
  {
    if end > i && IsBlank(s[end - 1]) {
      DropShape(s, i, end - 1);
    }
  }

  lemma StopShape(s: string, a: nat)
    requires a <= |s|
    ensures var n := LineStop(s, a); (n < |s| ==> s[n] == '\n') && forall j | a <= j < n :: s[j] != '\n'
  {
    var n := LineStop(s, a);
    forall j | a <= j < n ensures s[j] != '\n' {
      assert !At(s, "\n", j);
      assert s[j..j + 1] == [s[j]];
    }
  }

  /** A line break and a `=` are found at the first place they stand. */
  lemma FindChar(s: string, c: char, from: nat, i: nat)
    requires from <= i < |s| && s[i] == c && forall j | from <= j < i :: s[j] != c
    ensures Find(s, [c], from) == Some(i)
  {
    forall j | from <= j < i ensures !At(s, [c], j) {
      assert s[j..j + 1] == [s[j]];
    }
    assert s[i..i + 1] == [s[i]];
    FindFirst(s, [c], from, i);
  }

  /** How a located value stands on its line. */
  ghost predicate Located(s: string, a: nat, eq: nat, i: nat, p: Place) {
    && a <= eq < i <= p.start <= p.end <= |s| && i < |s|
    && s[eq] == '=' && (forall j | a <= j < eq :: s[j] != '=')
    && (forall j | eq < j < i :: IsBlank(s[j])) && !IsBlank(s[i])
    && (forall j | a <= j <= i :: s[j] != '\n')
    && (if IsQuote(s[i]) then p.start == i + 1 && CloseOf(s, i + 1, s[i]) == Some(p.end)
        else p.start == i && BareEndsAt(s, i, p.end))
  }

  /** From `end` on there are only blanks before a comment or the end of the line. */
  ghost predicate BareEndsAt(s: string, i: nat, end: nat) {
    && i < end <= |s| && !IsBlank(s[end - 1])
    && (forall j | i <= j < end :: s[j] != '#' && s[j] != '\n')
    && exists h: nat :: StopsAt(s, end, h)
  }

  ghost predicate StopsAt(s: string, end: nat, h: nat) {
    && end <= h <= |s| && (h < |s| ==> s[h] == '#' || s[h] == '\n')
    && forall j | end <= j < h :: IsBlank(s[j])
  }

  lemma LocatedHolds(s: string, a: nat) returns (eq: nat, i: nat)
    requires a <= |s| && PlaceOnLine(s, a).Some?
    ensures Located(s, a, eq, i, PlaceOnLine(s, a).value)
  {
    hide Find, LineStop, SkipBlanks, CommentAt, DropBlanks, CloseOf;
    var n := LineStop(s, a);
    StopShape(s, a);
    eq := Find(s, "=", a).value;
    forall j | a <= j <= eq ensures j < |s| && (s[j] == '=' <==> j == eq) {
      assert At(s, "=", eq);
      assert j < eq ==> !At(s, "=", j);
      assert s[j..j + 1] == [s[j]];
    }
    i := SkipBlanks(s, n, eq + 1);
    BlanksShape(s, n, eq + 1);
    if !IsQuote(s[i]) {
      var h := CommentAt(s, n, i);
      CommentShape(s, n, i);
      DropShape(s, i, h);
      assert StopsAt(s, DropBlanks(s, i, h), h);
    }
  }

  lemma LocatedFound(s: string, a: nat, eq: nat, i: nat, p: Place)
    requires Located(s, a, eq, i, p)
    ensures PlaceOnLine(s, a) == Some(p)
  {
    hide Find, LineStop, SkipBlanks, CommentAt, DropBlanks, CloseOf;
    var n := LineStop(s, a);
    StopShape(s, a);
    FindChar(s, '=', a, eq);
    BlanksShape(s, n, eq + 1);
    assert SkipBlanks(s, n, eq + 1) == i < n;
    if !IsQuote(s[i]) {
      BareFound(s, n, i, p.end);
    }
  }

  lemma BareFound(s: string, n: nat, i: nat, end: nat)
    requires i < n <= |s| && (n < |s| ==> s[n] == '\n') && forall j | i <= j < n :: s[j] != '\n'
    requires BareEndsAt(s, i, end)
    ensures DropBlanks(s, i, CommentAt(s, n, i)) == end
  {
    hide CommentAt, DropBlanks;
    var h: nat :| StopsAt(s, end, h);
    CommentShape(s, n, i);
    assert CommentAt(s, n, i) == h;
    DropShape(s, i, h);
  }

  /** The text with the range of a place replaced. */
  function Rewritten(s: string, p: Place, t: string): string
    requires p.start <= p.end <= |s|
  {
    s[..p.start] + t + s[p.end..]
  }

  lemma RewrittenShape(s: string, p: Place, t: string)
    requires p.start <= p.end <= |s|
    ensures var u := Rewritten(s, p, t);
      && |u| == |s| - (p.end - p.start) + |t|
      && (forall j | 0 <= j < p.start :: u[j] == s[j])
      && (forall j | 0 <= j < |t| :: u[p.start + j] == t[j])
      && (forall j | p.end <= j < |s| :: u[j - p.end + p.start + |t|] == s[j])
  {
  }

  /** The string around a rewritten place closes behind it exactly when the text is contained. */
  lemma QuotedRewritten(s: string, p: Place, t: string, q: char)
    requires p.start <= p.end < |s| && s[p.end] == q && IsQuote(q)
    ensures CloseOf(Rewritten(s, p, t), p.start, q) == Some(p.start + |t|) <==> Contained(t, q)
  {
    hide CloseOf, Contained;
    ClosesBehind(s[..p.start], t, q, s[p.end + 1..]);
    assert s[p.end..] == [q] + s[p.end + 1..];
    Regroup(s[..p.start] + t, [q], s[p.end + 1..]);
  }

  lemma FitsThenLocated(s: string, a: nat, eq: nat, i: nat, p: Place, t: string)
    requires Located(s, a, eq, i, p) && Fits(s[p.start - 1], t)
    ensures Located(Rewritten(s, p, t), a, eq, i, Place(p.start, p.start + |t|))
  {
    hide CloseOf, Contained, Rewritten;
    RewrittenShape(s, p, t);
    var u := Rewritten(s, p, t);
    if IsQuote(s[i]) {
      QuotedRewritten(s, p, t, s[i]);
    } else {
      var h: nat :| StopsAt(s, p.end, h);
      var end, k: nat := p.start + |t|, h - p.end + p.start + |t|;
      forall j | i <= j < end ensures u[j] != '#' && u[j] != '\n' {
        assert u[j] == t[j - p.start];
      }
      forall j | end <= j < k ensures IsBlank(u[j]) {
        assert u[j] == s[j - end + p.end];
      }
      assert k <= |u| && (k < |u| ==> u[k] == s[h]);
      assert StopsAt(u, end, k);
      assert u[i] == t[0] && u[end - 1] == t[|t| - 1];
    }
  }

  lemma LocatedThenFits(s: string, a: nat, eq: nat, i: nat, p: Place, t: string, eq2: nat, i2: nat)
    requires Located(s, a, eq, i, p)
    requires Located(Rewritten(s, p, t), a, eq2, i2, Place(p.start, p.start + |t|))
    ensures Fits(s[p.start - 1], t)
  {
    hide CloseOf, Contained, Rewritten;
    RewrittenShape(s, p, t);
    var u := Rewritten(s, p, t);
    assert eq2 == eq;
    if IsQuote(u[i2]) {
      QuotedRewritten(s, p, t, s[i]);
    } else {
      forall c | c in t ensures c != '#' && c != '\n' {
        var k :| 0 <= k < |t| && t[k] == c;
        assert u[p.start + k] == c;
      }
      assert t[|t| - 1] == u[p.start + |t| - 1];
    }
  }

  /** A value written as it is reads back as it was written, if and only if it fits where it stands. */
  lemma RawReadsBack(s: string, a: nat, t: string)
    requires a <= |s| && PlaceOnLine(s, a).Some?
    ensures var p := PlaceOnLine(s, a).value;
      var u := Rewritten(s, p, t);
      PlaceOnLine(u, a) == Some(Place(p.start, p.start + |t|)) <==> Fits(s[p.start - 1], t)
  {
    hide PlaceOnLine, Rewritten, Located, Fits;
    var p := PlaceOnLine(s, a).value;
    var u := Rewritten(s, p, t);
    assert a < p.start && |u| >= p.start by { RewrittenShape(s, p, t); }
    var eq, i := LocatedHolds(s, a);
    if Fits(s[p.start - 1], t) {
      FitsThenLocated(s, a, eq, i, p, t);
      LocatedFound(u, a, eq, i, Place(p.start, p.start + |t|));
    }
    if PlaceOnLine(u, a) == Some(Place(p.start, p.start + |t|)) {
      var eq2, i2 := LocatedHolds(u, a);
      LocatedThenFits(s, a, eq, i, p, t, eq2, i2);
    }
  }

  lemma {:induction false} LineAtLocal(s: string, u: string, n: nat, line: nat, offset: nat)
    requires n <= |s| && n <= |u| && s[..n] == u[..n] && line >= 1 && offset <= n
    requires LineAt(s, line, offset).Some? && LineAt(s, line, offset).value <= n
    ensures LineAt(u, line, offset) == LineAt(s, line, offset)
    decreases line
  {
    hide Find;
    if line > 1 {
      var nl := Find(s, "\n", offset).value;
      LineAtGrows(s, line - 1, nl + 1);
      FindLocal(s, u, "\n", offset, n);
      LineAtLocal(s, u, n, line - 1, nl + 1);
    }
  }

  lemma {:induction false} LineAtGrows(s: string, line: nat, offset: nat)
    requires line >= 1 && offset <= |s| && LineAt(s, line, offset).Some?
    ensures offset <= LineAt(s, line, offset).value
    decreases line
  {
    hide Find;
    if line > 1 {
      LineAtGrows(s, line - 1, Find(s, "\n", offset).value + 1);
    }
  }

  lemma OnlyEditKept<M>(e: Edit<M>)
    ensures Kept([e]) == [e]
  {
    var rank := Rank<M>(Reach([e]));
    assert [e][..0] == [] && [e][1..] == [];
    assert Sorting.StableSort<Edit<M>>([], rank) == [];
    assert Sorting.Insert([], e, rank) == [e];
    assert Sorted([e]) == [e];
    assert Accepted<M>([], e.end) == [];
  }

  lemma OnlyEditReplaced<M>(source: string, e: Edit<M>)
    requires Ordered([e], 0, |source|)
    ensures e.start <= e.end <= |source| && Replaced(source, [e], 0) == Rewritten(source, Place(e.start, e.end), e.text)
  {
    OrderedBound([e], 0, |source|);
    assert [e][1..] == [];
  }

  /** One edit is written where the place was. */
  lemma OneEditApplied(source: string, at: string -> Option<Position>, d: Diagnostic)
    requires d.fix.Some? && d.path.Some? && d.path.value != "" && at(d.path.value).Some?
    requires OffsetSpan(source, at(d.path.value).value).Some?
    ensures ApplySpec(source, at, [d]) == Rewritten(source, OffsetSpan(source, at(d.path.value).value).value, d.fix.value)
  {
    hide OffsetSpan, Kept, Ordered;
    var p := OffsetSpan(source, at(d.path.value).value).value;
    assert [d][..|[d]| - 1] == [];
    assert OffsetEdits(source, at, []) == [];
    var e := OffsetEdit(source, at, d);
    var edits := OffsetEdits(source, at, [d]);
    KeptIsOrdered(edits, |source|);
    if e.None? {
      assert edits == [];
      NoEditKept();
      assert source[..p.start] + source[p.start..p.end] + source[p.end..] == source;
    } else {
      assert edits == [e.value];
      OnlyEditKept(e.value);
      OnlyEditReplaced(source, e.value);
    }
  }

  lemma NoEditKept()
    ensures Kept<()>([]) == []
  {
    assert Sorted<()>([]) == [];
  }

  /**
   One diagnostic applied: its line keeps its place, the value reads as the replacement if
   and only if the replacement fits, and if it fits a second run changes nothing.
   */
  lemma AppliedReadsBack(source: string, at: string -> Option<Position>, d: Diagnostic)
    requires d.fix.Some? && d.path.Some? && d.path.value != "" && at(d.path.value).Some?
    requires OffsetSpan(source, at(d.path.value).value).Some?
    ensures var position := at(d.path.value).value;
      var p, u := OffsetSpan(source, position).value, ApplySpec(source, at, [d]);
      && p.start > 0
      && (OffsetSpan(u, position) == Some(Place(p.start, p.start + |d.fix.value|)) <==> Fits(source[p.start - 1], d.fix.value))
      && (Fits(source[p.start - 1], d.fix.value) ==> ApplySpec(u, at, [d]) == u)
  {
    hide PlaceOnLine, Rewritten, ApplySpec, LineAt, Fits;
    var position := at(d.path.value).value;
    var p, u := OffsetSpan(source, position).value, ApplySpec(source, at, [d]);
    var a := LineAt(source, position.line, 0).value;
    OneEditApplied(source, at, d);
    RewrittenShape(source, p, d.fix.value);
    assert source[..a] == u[..a];
    LineAtLocal(source, u, a, position.line, 0);
    RawReadsBack(source, a, d.fix.value);
    if Fits(source[p.start - 1], d.fix.value) {
      OneEditApplied(u, at, d);
      RewrittenTwice(source, p, d.fix.value);
    }
  }

  lemma RewrittenTwice(s: string, p: Place, t: string)
    requires p.start <= p.end <= |s|
    ensures var u := Rewritten(s, p, t);
      p.start + |t| <= |u| && Rewritten(u, Place(p.start, p.start + |t|), t) == u
  {
  }

  // ----- The two ways to locate a value -----

  /** Both ways look at the same line. */
  lemma {:induction false} SameLineStart(p: string, r: string, line: nat)
    requires line >= 1 && Boundary(p)
    ensures var starts, k := LineStarts(p + r), Breaks(p) + line - 1;
      LineAt(p + r, line, |p|) == if k < |starts| then Some(starts[k]) else None
    decreases line
  {
    hide Find, LineStarts, Breaks, LineLength, Boundary;
    LineAfter(p, r);
    if line > 1 {
      var s, nl := p + r, Find(p + r, "\n", |p|);
      StopShape(s, |p|);
      if nl.Some? {
        NextLine(p, r, nl.value);
        SameLineStart(s[..nl.value + 1], s[nl.value + 1..], line - 1);
      } else {
        assert '\n' !in r by { assert r == s[|p|..]; }
        NoBreaks(r);
        NoSecondStart(p, r);
      }
    }
  }

  lemma NextLine(p: string, r: string, nl: nat)
    requires |p| <= nl < |p + r| && (p + r)[nl] == '\n' && forall j | |p| <= j < nl :: (p + r)[j] != '\n'
    ensures var s := p + r;
      s[..nl + 1] + s[nl + 1..] == s && Boundary(s[..nl + 1]) && Breaks(s[..nl + 1]) == Breaks(p) + 1
  {
    hide Breaks;
    var s := p + r;
    var x := s[|p|..nl];
    NoBreaks(x);
    BreaksConcat(p, x);
    OneBreak(p + x);
    assert p + x + "\n" == s[..nl + 1];
  }

  lemma OneBreak(s: string)
    ensures Boundary(s + "\n") && Breaks(s + "\n") == Breaks(s) + 1
  {
    assert (s + "\n")[..|s|] == s;
  }

  lemma {:induction false} LiteralCloses(s: string, i: nat, close: nat)
    requires i <= close < |s| && s[close] == '\'' && forall j | i <= j < close :: s[j] != '\'' && s[j] != '\n'
    ensures CloseOf(s, i, '\'') == Some(close)
    decreases close - i
  {
    if i < close {
      LiteralCloses(s, i + 1, close);
    }
  }

  lemma {:induction false} BasicClosesToo(s: string, limit: nat, i: nat)
    requires i <= limit <= |s| && FormatScan.BasicCloses(s[..limit], i)
    requires forall j | i <= j < limit - 1 :: s[j] != '\n'
    ensures CloseOf(s, i, '"') == Some(FormatScan.BasicEnd(s[..limit], i) - 1)
    decreases limit - i
  {
    if s[i] == '\\' {
      BasicClosesToo(s, limit, i + 2);
    } else if s[i] != '"' {
      BasicClosesToo(s, limit, i + 1);
    }
  }

  lemma EqualsSign(s: string, a: nat, from: nat, eq: nat)
    requires a <= from && Find(s, "=", from) == Some(eq) && forall j | a <= j < from && j < |s| :: s[j] != '='
    ensures eq < |s| && forall j | a <= j <= eq :: s[j] == '=' <==> j == eq
  {
    hide Find;
    assert At(s, "=", eq);
    forall j | a <= j <= eq ensures s[j] == '=' <==> j == eq {
      assert s[j..j + 1] == [s[j]];
      assert from <= j < eq ==> !At(s, "=", j);
    }
  }

  /** The quotes of a string value are the ones that `findClosingQuote` pairs. */
  lemma StringLocated(s: string, limit: nat, span: Span)
    requires span.start < limit <= |s| && ValueAt(s, limit, span.start) == Some(span)
    requires span.quote == Basic || span.quote == Literal
    requires forall j | span.start <= j < limit - 1 :: s[j] != '\n'
    ensures IsQuote(s[span.start]) && span.start + 1 < span.end <= limit
    ensures CloseOf(s, span.start + 1, s[span.start]) == Some(span.end - 1)
  {
    hide ValueAt, BasicAt, CloseOf;
    StringRead(s, limit, span);
    if span.quote == Basic {
      BasicLocated(s, limit, span);
    } else {
      LiteralLocated(s, limit, span);
    }
  }

  lemma BasicLocated(s: string, limit: nat, span: Span)
    requires span.start < limit <= |s| && BasicAt(s, limit, span.start) == Some(span)
    requires forall j | span.start <= j < limit - 1 :: s[j] != '\n'
    ensures span.start + 1 < span.end <= limit && CloseOf(s, span.start + 1, '"') == Some(span.end - 1)
  {
    hide DecodeBasic, CloseOf, FormatScan.BasicCloses, FormatScan.BasicEnd;
    ClosesAfter(s[..limit], span.start + 1);
    BasicClosesToo(s, limit, span.start + 1);
  }

  lemma LiteralLocated(s: string, limit: nat, span: Span)
    requires span.start < limit <= |s| && LiteralAt(s, limit, span.start) == Some(span)
    requires forall j | span.start <= j < limit - 1 :: s[j] != '\n'
    ensures span.start + 1 < span.end <= limit && CloseOf(s, span.start + 1, '\'') == Some(span.end - 1)
  {
    hide *;
    LiteralFoundAt(s, limit, span);
    QuoteCloses(s, limit, span.start + 1, span.end - 1);
  }

  lemma QuoteCloses(s: string, limit: nat, i: nat, close: nat)
    requires Find(s, "'", i) == Some(close) && close < limit <= |s| && forall j | i <= j < limit - 1 :: s[j] != '\n'
    ensures CloseOf(s, i, '\'') == Some(close)
  {
    hide CloseOf, Find;
    assert At(s, "'", close);
    forall j | i <= j <= close ensures s[j] == '\'' <==> j == close {
      assert s[j..j + 1] == [s[j]];
      assert j < close ==> !At(s, "'", j);
    }
    LiteralCloses(s, i, close);
  }

  /** The text from `a` to `limit` is one line, its line break included. */
  ghost predicate IsLine(s: string, a: nat, limit: nat) {
    && a <= limit <= |s| && (limit == |s| || (limit > a && s[limit - 1] == '\n'))
    && forall j | a <= j < limit - 1 :: s[j] != '\n'
  }

  /** On the line at `a` the key at `from` stands first, and spaces or tabs may stand before its string. */
  ghost predicate PlainString(s: string, a: nat, limit: nat, from: nat, key: string) {
    && a <= from && limit <= |s| && SpanIn(s, limit, from, key).Some?
    && var span := SpanIn(s, limit, from, key).value;
    && (span.quote == Basic || span.quote == Literal)
    && (forall j | a <= j < from && j < |s| :: s[j] != '=')
    && Find(s, "=", from).Some?
    && forall j | Find(s, "=", from).value < j < span.start :: IsBlank(s[j])
  }

  /** A string on one line: `applyFixes` rewrites exactly what stands inside the quotes that `fix` rewrites. */
  lemma SameString(s: string, a: nat, limit: nat, from: nat, key: string)
    requires IsLine(s, a, limit) && PlainString(s, a, limit, from, key)
    ensures var span := SpanIn(s, limit, from, key).value;
      PlaceOnLine(s, a) == Some(Place(span.start + 1, span.end - 1))
  {
    hide PlaceOnLine, CloseOf, ValueAt, Find, SkipGaps;
    var span, eq := SpanIn(s, limit, from, key).value, Find(s, "=", from).value;
    EqualsSign(s, a, from, eq);
    StringLocated(s, limit, span);
    LocatedFound(s, a, eq, span.start, Place(span.start + 1, span.end - 1));
  }

  /** Where the line that is listed at `line - 1` ends, its line break included. */
  function LineLimit(s: string, line: nat): nat
    requires 1 <= line <= |LineStarts(s)|
  {
    if line < |LineStarts(s)| then LineStarts(s)[line] else |s|
  }

  lemma NothingBefore(s: string)
    ensures Boundary("") && Breaks("") == 0 && "" + s == s && |""| == 0
  {
  }

  lemma LineAtIsListed(s: string, line: nat)
    requires 1 <= line <= |LineStarts(s)|
    ensures LineAt(s, line, 0) == Some(LineStarts(s)[line - 1])
  {
    hide *;
    NothingBefore(s);
    SameLineStart("", s, line);
  }

  lemma LimitAfter(p: string, r: string)
    requires Boundary(p)
    ensures Breaks(p) < |LineStarts(p + r)| && LineLimit(p + r, Breaks(p) + 1) == |p| + LineLength(r)
  {
    hide LineStarts, LineLength, Breaks;
    LineAfter(p, r);
  }

  lemma LimitIsLine(s: string, line: nat, p: string, r: string)
    requires 1 <= line <= |LineStarts(s)| && s == p + r && Boundary(p) && Breaks(p) == line - 1
    ensures IsLine(s, |p|, LineLimit(s, line))
  {
    hide *;
    LimitAfter(p, r);
    LineLengthIsLine(p, r);
  }

  lemma LineShape(s: string, line: nat)
    requires 1 <= line <= |LineStarts(s)|
    ensures LineAt(s, line, 0) == Some(LineStarts(s)[line - 1])
    ensures IsLine(s, LineStarts(s)[line - 1], LineLimit(s, line))
  {
    hide *;
    var a := LineStarts(s)[line - 1];
    LineAtIsListed(s, line);
    StartIsBoundary(s, line - 1);
    var p, r := s[..a], s[a..];
    assert s == p + r by { CutIn(s, a); }
    LimitIsLine(s, line, p, r);
  }

  lemma LineLengthIsLine(p: string, r: string)
    ensures IsLine(p + r, |p|, |p| + LineLength(r))
  {
    var s, n := p + r, LineLength(r);
    forall j | |p| <= j < |p| + n - 1 ensures s[j] != '\n' {
      assert s[j] == r[j - |p|] == r[..n - 1][j - |p|];
    }
    assert n > 0 ==> s[|p| + n - 1] == r[n - 1];
  }

  /** The two ways to locate a value agree on every string on one line whose key stands first on it. */
  lemma SameValue(s: string, position: Position, path: string)
    requires position.line <= |LineStarts(s)|
    requires var a := LineStarts(s)[position.line - 1];
      PlainString(s, a, LineLimit(s, position.line), a + position.column - 1, KeyOf(path))
    ensures var span := ValueSpan(s, position, path);
      span.Some? && OffsetSpan(s, position) == Some(Place(span.value.start + 1, span.value.end - 1))
  {
    hide LineStarts, LineAt, SpanIn, PlaceOnLine, Find, KeyOf, IsLine;
    LineShape(s, position.line);
    var a := LineStarts(s)[position.line - 1];
    SameString(s, a, LineLimit(s, position.line), a + position.column - 1, KeyOf(path));
  }

  // ----- What TOML reads -----

  /**
   `t` can be written between one-line quotes `q` and says itself: it holds no quote of this
   kind, no control character, and in a basic string no backslash.
   */
  predicate Verbatim(t: string, q: char) {
    q !in t && NoControls(t) && (q == '"' ==> '\\' !in t)
  }

  /** What TOML allows between one-line quotes `q`. */
  predicate ContentOf(q: char, content: string) {
    if q == '"' then BasicContent(content) else NoControls(content)
  }

  /** The line that starts at `a`, without its line break. */
  function LineText(s: string, a: nat): string
    requires a <= |s|
  {
    s[a..LineStop(s, a)]
  }

  /** Where TOML finds the separator on a line that starts a key/value, if there is one. */
  function Separator(s: string, a: nat): (eq: Option<nat>)
    requires a <= |s|
    ensures eq.Some? ==> a <= eq.value < LineStop(s, a) && s[eq.value] == '='
  {
    var eq := FormatAgree.TomlLine(LineText(s, a), 0, FormatScan.Outside).eq;
    if eq < 0 then None
    else
      FormatAgree.SeparatorColumn(LineText(s, a));
      Some(a + eq)
  }

  /** Where TOML's value starts on that line. */
  function ValueOffset(s: string, a: nat): Option<nat>
    requires a <= |s|
  {
    match Separator(s, a)
    case None => None
    case Some(eq) => Some(SkipBlanks(s, LineStop(s, a), eq + 1))
  }

  /** No `=` stands in the key. */
  predicate SeparatorFirst(s: string, a: nat)
    requires a <= |s|
  {
    Separator(s, a).Some? && '=' !in s[a..Separator(s, a).value]
  }

  /**
   The place is the content of a valid one-line string behind a key without `=`, not of three
   quotes taken for an empty one, and the replacement says itself there; an empty one with no
   third quote behind.
   */
  predicate StringFits(s: string, a: nat, p: Place, t: string)
    requires a <= |s| && 0 < p.start <= p.end <= |s|
  {
    var q := s[p.start - 1];
    && SeparatorFirst(s, a)
    && IsQuote(q) && !At(s, [q, q, q], p.start - 1) && ContentOf(q, s[p.start..p.end])
    && Verbatim(t, q) && (t == "" ==> !At(s, [q], p.end + 1))
  }

  lemma {:induction false} BasicQuoteBehind(pre: string, t: string, rest: string)
    ensures BasicQuote(pre + t + "\"" + rest, |pre|) == Some(|pre| + |t|) <==> Contained(t, '"') && '\n' !in t
    decreases |t|
  {
    var s := pre + t + "\"" + rest;
    if t == "" {
      assert s[|pre|] == '"';
    } else {
      assert s[|pre|] == t[0];
      if t[0] == '\\' {
        if |t| >= 2 {
          assert s[|pre| + 1] == t[1] && t == t[..2] + t[2..];
          assert pre + t[..2] + t[2..] + "\"" + rest == s;
          BasicQuoteBehind(pre + t[..2], t[2..], rest);
        }
      } else if t[0] != '"' && t[0] != '\n' {
        assert pre + t[..1] + t[1..] + "\"" + rest == s && t == t[..1] + t[1..];
        BasicQuoteBehind(pre + t[..1], t[1..], rest);
      }
    }
  }

  lemma {:induction false} LiteralQuoteBehind(pre: string, t: string, rest: string)
    ensures LiteralQuote(pre + t + "'" + rest, |pre|) == Some(|pre| + |t|) <==> Contained(t, '\'') && '\n' !in t
    decreases |t|
  {
    var s := pre + t + "'" + rest;
    if t == "" {
      assert s[|pre|] == '\'';
    } else {
      assert s[|pre|] == t[0];
      if t[0] != '\'' && t[0] != '\n' {
        assert pre + t[..1] + t[1..] + "'" + rest == s && t == t[..1] + t[1..];
        LiteralQuoteBehind(pre + t[..1], t[1..], rest);
      }
    }
  }

  lemma {:induction false} SkipsOnly(s: string)
    ensures |DecodeMulti(s)| <= |s|
    decreases |s|
  {
    if s != "" {
      if s[0] == '\\' && ContinuesLine(s[1..]) {
        SkipsOnly(SkipLayout(s[1..]));
      } else {
        var n := EscapeLength(s);
        SkipsOnly(if n == 0 then s[1..] else s[n..]);
      }
    }
  }

  /** A multi-line string says less than what stands between two single quotes around it. */
  lemma TripleSaysLess(s: string, v: nat, q: char)
    requires IsQuote(q) && At(s, [q, q, q], v)
    ensures StringToken(s, v).Some? ==>
      StringToken(s, v).value.end >= v + 6 && |StringToken(s, v).value.value| < StringToken(s, v).value.end - v - 2
  {
    hide At, BasicTriple, Find, DecodeMulti, MultiContent, OnlyLineBreaks;
    assert [q, q, q] == if q == '"' then TRIPLE_BASIC else TRIPLE_LITERAL;
    TripleIsLong(s, v, q);
    TripleStarts(s, v);
    if StringToken(s, v).Some? {
      var content := s[v + 3..StringToken(s, v).value.end - 3];
      BreakIsNoMore(content);
      SkipsOnly(WithoutFirstBreak(content));
    }
  }

  lemma BreakIsNoMore(s: string)
    ensures |WithoutFirstBreak(s)| <= |s|
  {
  }

  lemma TomlEscapeShrinks(s: string)
    requires TomlEscape(s) > 0
    ensures EscapeLength(s) == TomlEscape(s)
    ensures var esc := s[..TomlEscape(s)]; EscapeLength(esc) == |esc| && |Unescape(esc)| == 1
  {
    var n := TomlEscape(s);
    assert IsShortEscape(s[1]) || n > 2 by { ShortNames(s[1]); }
    EscapeAlone(s);
    assert s[..n][1] == s[1];
  }

  predicate IsShortEscape(c: char) {
    c == 'b' || c == 't' || c == 'n' || c == 'f' || c == 'r' || c == '"' || c == '\\'
  }

  lemma ShortNames(c: char)
    ensures c in "btnfr\"\\" <==> IsShortEscape(c)
  {
    var e := "btnfr\"\\";
    assert e[0] == 'b' && e[1] == 't' && e[2] == 'n' && e[3] == 'f' && e[4] == 'r' && e[5] == '"' && e[6] == '\\';
  }

  /** A valid escape says less than it is written with: a text that says itself has none. */
  lemma {:induction false} SaysItself(t: string)
    requires Escapes(t, false)
    ensures |DecodeBasic(t)| <= |t|
    ensures DecodeBasic(t) == t <==> '\\' !in t
    ensures '\\' in t ==> |DecodeBasic(t)| < |t|
    decreases |t|
  {
    hide Unescape, TomlEscape, EscapeLength;
    if t != "" {
      if t[0] == '\\' {
        TomlEscapeShrinks(t);
        SaysItself(t[TomlEscape(t)..]);
        EscapeAlone(t);
      } else {
        assert EscapeLength(t) == 0 by { NoEscape(t); }
        SaysItself(t[1..]);
        assert t == [t[0]] + t[1..];
      }
    }
  }

  lemma NoEscape(t: string)
    requires t != "" && t[0] != '\\'
    ensures EscapeLength(t) == 0
  {
  }

  /** Without backslashes a text is contained as long as it holds neither the quote nor a line break. */
  lemma {:induction false} PlainContained(t: string, q: char)
    requires q == '"' ==> '\\' !in t
    ensures Contained(t, q) <==> q !in t && '\n' !in t
    decreases |t|
  {
    if t != "" {
      PlainContained(t[1..], q);
      assert t == [t[0]] + t[1..];
    }
  }

  lemma VerbatimText(t: string, q: char)
    requires IsQuote(q)
    ensures Verbatim(t, q) <==> Contained(t, q) && '\n' !in t && ContentOf(q, t) && (q == '"' ==> DecodeBasic(t) == t)
  {
    hide Contained, Escapes, DecodeBasic;
    if q == '"' {
      if '\\' !in t {
        PlainContained(t, q);
        PlainEscapes(t, false);
        PlainBasic(t);
      } else if Escapes(t, false) {
        SaysItself(t);
      }
    } else {
      PlainContained(t, q);
    }
  }

  /** What TOML reads between two quotes. */
  lemma QuotedToken(pre: string, q: char, t: string, rest: string)
    requires IsQuote(q)
    ensures StringToken(pre + [q] + t + [q] + rest, |pre|) == Some(Token(|pre| + |t| + 2, t)) <==>
      Verbatim(t, q) && (t == "" ==> !At(rest, [q], 0))
  {
    hide StringToken, At, Contained, DecodeBasic, BasicQuote, LiteralQuote, Verbatim, BasicContent, NoControls;
    var s, v := pre + [q] + t + [q] + rest, |pre|;
    assert s[v] == q && s[v + 1..v + 1 + |t|] == t;
    assert s == (pre + [q]) + t + [q] + rest;
    VerbatimText(t, q);
    BasicQuoteBehind(pre + [q], t, rest);
    LiteralQuoteBehind(pre + [q], t, rest);
    if At(s, [q, q, q], v) {
      TripleSaysLess(s, v, q);
      OpenedByQuotes(pre, q, t, rest);
    } else {
      StartsString(s, v);
      NotOpened(pre, q, t, rest);
    }
  }

  lemma OpenedByQuotes(pre: string, q: char, t: string, rest: string)
    requires IsQuote(q) && At(pre + [q] + t + [q] + rest, [q, q, q], |pre|)
    ensures !Contained(t, q) || (t == "" && At(rest, [q], 0))
  {
    var s, v := pre + [q] + t + [q] + rest, |pre|;
    assert s[v..v + 3] == [q, q, q] && s[v + 1] == q && s[v + 2] == s[v..v + 3][2] == q;
    if t == "" {
      assert s[v + 2] == rest[0] && rest[0..1] == [rest[0]];
    } else {
      assert s[v + 1] == t[0];
    }
  }

  lemma NotOpened(pre: string, q: char, t: string, rest: string)
    requires IsQuote(q) && !At(pre + [q] + t + [q] + rest, [q, q, q], |pre|)
    ensures t == "" ==> !At(rest, [q], 0)
  {
    var s, v := pre + [q] + t + [q] + rest, |pre|;
    if t == "" && rest != "" {
      assert s[v..v + 3] == [s[v], s[v + 1], s[v + 2]] && s[v + 2] == rest[0] && rest[0..1] == [rest[0]];
    }
  }

  lemma {:induction false} PlaceQuote(s: string, i: nat, end: nat, q: char)
    requires IsQuote(q) && i <= end < |s| && CloseOf(s, i, q) == Some(end)
    ensures q == '"' ==> BasicQuote(s, i) == if '\n' in s[i..end] then None else Some(end)
    ensures q == '\'' ==> '\n' !in s[i..end] && LiteralQuote(s, i) == Some(end)
    decreases end - i
  {
    if i < end {
      if q == '"' && s[i] == '\\' {
        assert s[i..end] == [s[i], s[i + 1]] + s[i + 2..end];
        PlaceQuote(s, i + 2, end, q);
      } else {
        assert s[i..end] == [s[i]] + s[i + 1..end];
        PlaceQuote(s, i + 1, end, q);
      }
    }
  }

  /** Where TOML's value starts: with the quote in front of the place, if there is one. */
  function ValueStart(s: string, p: Place): nat
    requires 0 < p.start <= |s|
  {
    if IsQuote(s[p.start - 1]) then p.start - 1 else p.start
  }

  /**
   The place is in the value TOML reads on the line; behind the same key TOML reads the string
   that was written, and behind it stands what stood behind the source's string.
   */
  predicate StringReplaced(s: string, a: nat, p: Place, t: string)
    requires a < p.start <= p.end <= |s|
  {
    var u, v := Rewritten(s, p, t), ValueStart(s, p);
    var before := StringToken(s, v);
    && ValueOffset(s, a) == Some(v) && ValueOffset(u, a) == Some(v) && u[..v] == s[..v]
    && before.Some? && StringToken(u, v) == Some(Token(p.start + |t| + 1, t))
    && u[p.start + |t| + 1..] == s[before.value.end..]
  }

  /** A string at the place is TOML's value exactly when the `=` found is TOML's separator. */
  lemma PlaceIsValue(s: string, a: nat, eq: nat, i: nat, p: Place)
    requires Located(s, a, eq, i, p) && IsQuote(s[i])
    ensures ValueOffset(s, a) == Some(i) <==> SeparatorFirst(s, a)
    ensures SeparatorFirst(s, a) ==> Separator(s, a) == Some(eq)
  {
    hide LineStop, SkipBlanks, CloseOf, Separator;
    StopShape(s, a);
    if Separator(s, a).Some? {
      var sep := Separator(s, a).value;
      BlanksShape(s, LineStop(s, a), sep + 1);
      assert sep != eq ==> eq < sep && s[a..sep][eq - a] == '=';
      assert sep == eq ==> forall j | 0 <= j < sep - a :: s[a..sep][j] == s[a + j];
    }
  }

  lemma ValueStays(s: string, a: nat, eq: nat, i: nat, p: Place, t: string)
    requires Located(s, a, eq, i, p) && IsQuote(s[i]) && Separator(s, a) == Some(eq) && '\n' !in t
    ensures ValueOffset(Rewritten(s, p, t), a) == Some(i)
  {
    hide LineStop, SkipBlanks, CloseOf, Rewritten, FormatAgree.TomlLine;
    var u := Rewritten(s, p, t);
    StopShape(s, a);
    FrontStays(s, p, t, i);
    StopShape(u, a);
    assert u[..eq + 1] == u[..i + 1][..eq + 1] == s[..eq + 1];
    SamePrefix(s, u, a, eq);
    FormatAgree.SeparatorKept(LineText(s, a), LineText(u, a), eq - a);
    BlanksShape(u, LineStop(u, a), eq + 1);
  }

  lemma FrontStays(s: string, p: Place, t: string, i: nat)
    requires i + 1 == p.start <= p.end < |s|
    ensures var u := Rewritten(s, p, t); i < |u| && u[..i + 1] == s[..i + 1] && forall j | 0 <= j <= i :: u[j] == s[j]
  {
  }

  /** Two lines that agree up to `eq` and do not end before it. */
  lemma SamePrefix(s: string, u: string, a: nat, eq: nat)
    requires a <= eq < |s| && eq < |u| && u[..eq + 1] == s[..eq + 1]
    requires eq < LineStop(s, a) && eq < LineStop(u, a)
    ensures LineText(u, a)[..eq - a + 1] == LineText(s, a)[..eq - a + 1]
  {
    hide LineStop;
    assert LineText(u, a)[..eq - a + 1] == u[..eq + 1][a..];
    assert LineText(s, a)[..eq - a + 1] == s[..eq + 1][a..];
  }

  /**
   Exactly when writing a replacement as it is replaces TOML's string by a string that says
   the replacement, and nothing else. A value that is no string, or stands in three quotes,
   is never replaced, and neither is one behind a key that holds a `=`.
   */
  lemma RawStringReplaced(s: string, a: nat, t: string)
    requires a <= |s| && PlaceOnLine(s, a).Some?
    ensures var p := PlaceOnLine(s, a).value; StringReplaced(s, a, p, t) <==> StringFits(s, a, p, t)
  {
    hide PlaceOnLine, StringToken, CloseOf, Verbatim, At, ContentOf, ValueOffset, SeparatorFirst;
    var p := PlaceOnLine(s, a).value;
    var eq, i := LocatedHolds(s, a);
    if IsQuote(s[i]) {
      PlaceIsValue(s, a, eq, i, p);
      QuotedReplaced(s, a, eq, p, t, s[i]);
    } else {
      assert !IsQuote(s[p.start - 1]);
      NoString(s, p.start);
    }
  }

  lemma NoString(s: string, v: nat)
    requires v < |s| && !IsQuote(s[v])
    ensures StringToken(s, v) == None
  {
    hide At;
    TripleStarts(s, v);
    OneQuote(s, '"', v);
    OneQuote(s, '\'', v);
  }

  lemma QuotedReplaced(s: string, a: nat, eq: nat, p: Place, t: string, q: char)
    requires IsQuote(q) && 0 < p.start <= p.end < |s| && s[p.start - 1] == q && s[p.end] == q
    requires a < p.start && CloseOf(s, p.start, q) == Some(p.end) && Located(s, a, eq, p.start - 1, p)
    requires ValueOffset(s, a) == Some(p.start - 1) <==> SeparatorFirst(s, a)
    requires SeparatorFirst(s, a) ==> Separator(s, a) == Some(eq)
    ensures StringReplaced(s, a, p, t) <==> StringFits(s, a, p, t)
  {
    hide StringToken, CloseOf, Verbatim, At, Rewritten, ContentOf, ValueOffset, SeparatorFirst, Separator, Located;
    var v, u := p.start - 1, Rewritten(s, p, t);
    OutputToken(s, p, t, q);
    SourceToken(s, p, q);
    SameFront(s, p, t);
    if StringToken(s, v).Some? {
      SameSuffix(s, p.end + 1, StringToken(s, v).value.end);
    }
    if Verbatim(t, q) && SeparatorFirst(s, a) {
      NoBreakIn(t, q);
      ValueStays(s, a, eq, v, p, t);
    }
  }

  lemma SameFront(s: string, p: Place, t: string)
    requires 0 < p.start <= p.end <= |s|
    ensures var u := Rewritten(s, p, t); p.start <= |u| && u[..p.start - 1] == s[..p.start - 1]
  {
  }

  lemma NoBreakIn(t: string, q: char)
    requires Verbatim(t, q)
    ensures '\n' !in t
  {
  }

  lemma OutputToken(s: string, p: Place, t: string, q: char)
    requires IsQuote(q) && 0 < p.start <= p.end < |s| && s[p.start - 1] == q && s[p.end] == q
    ensures var u, n := Rewritten(s, p, t), p.start + |t| + 1;
      && n <= |u| && u[n..] == s[p.end + 1..]
      && (StringToken(u, p.start - 1) == Some(Token(n, t)) <==> Verbatim(t, q) && (t == "" ==> !At(s, [q], p.end + 1)))
  {
    hide StringToken, Verbatim, At;
    var pre, rest := s[..p.start - 1], s[p.end + 1..];
    assert s[..p.start] == pre + [q] && s[p.end..] == [q] + rest;
    assert Rewritten(s, p, t) == pre + [q] + t + [q] + rest;
    AtBehind(s, p.end + 1, q);
    QuotedToken(pre, q, t, rest);
  }

  /** The place is all of TOML's string exactly when it does not start with three quotes and holds what TOML allows. */
  lemma SourceToken(s: string, p: Place, q: char)
    requires IsQuote(q) && 0 < p.start <= p.end < |s| && s[p.start - 1] == q && s[p.end] == q
    requires CloseOf(s, p.start, q) == Some(p.end)
    ensures StringToken(s, p.start - 1).Some? && StringToken(s, p.start - 1).value.end == p.end + 1 <==>
      !At(s, [q, q, q], p.start - 1) && ContentOf(q, s[p.start..p.end])
  {
    hide StringToken, CloseOf, At, BasicQuote, LiteralQuote, DecodeBasic, Escapes;
    var v := p.start - 1;
    if At(s, [q, q, q], v) {
      TripleIsLong(s, v, q);
      EmptyPlace(s, p, q);
    } else {
      StartsString(s, v);
      PlaceQuote(s, p.start, p.end, q);
    }
  }

  lemma EmptyPlace(s: string, p: Place, q: char)
    requires IsQuote(q) && 0 < p.start <= p.end < |s| && CloseOf(s, p.start, q) == Some(p.end)
    requires At(s, [q, q, q], p.start - 1)
    ensures p.end == p.start
  {
    assert s[p.start - 1..p.start + 2][1] == s[p.start];
  }

  /** The same for `applyFixes` with one diagnostic. */
  lemma AppliedString(source: string, at: string -> Option<Position>, d: Diagnostic)
    requires d.fix.Some? && d.path.Some? && d.path.value != "" && at(d.path.value).Some?
    requires OffsetSpan(source, at(d.path.value).value).Some?
    ensures var p := OffsetSpan(source, at(d.path.value).value).value;
      && p.start > 0 && ApplySpec(source, at, [d]) == Rewritten(source, p, d.fix.value)
      && var a := LineAt(source, at(d.path.value).value.line, 0).value;
         a < p.start && (StringReplaced(source, a, p, d.fix.value) <==> StringFits(source, a, p, d.fix.value))
  {
    hide PlaceOnLine, LineAt, ApplySpec, Rewritten, StringReplaced, StringFits;
    var a := LineAt(source, at(d.path.value).value.line, 0).value;
    OneEditApplied(source, at, d);
    RawStringReplaced(source, a, d.fix.value);
  }

  /**
   And with any number of diagnostics: TOML reads every replacement that was written into a
   string of its own, if it says itself there.
   */
  lemma EachString(source: string, at: string -> Option<Position>, ds: seq<Diagnostic>, k: nat)
    requires var edits := Kept(OffsetEdits(source, at, ds));
      && k < |edits| && 0 < edits[k].start <= edits[k].end < |source|
      && IsQuote(source[edits[k].start - 1]) && source[edits[k].end] == source[edits[k].start - 1]
      && (k > 0 ==> edits[k - 1].end < edits[k].start)
      && (k + 1 < |edits| ==> edits[k].end + 1 < edits[k + 1].start)
    ensures var edits, result := Kept(OffsetEdits(source, at, ds)), ApplySpec(source, at, ds);
      var e, q := edits[k], source[edits[k].start - 1];
      var p := e.start + Growth(edits[..k]);
      p > 0 &&
      (StringToken(result, p - 1) == Some(Token(p + |e.text| + 1, e.text)) <==>
         Verbatim(e.text, q) && (e.text == "" ==> !At(source, [q], e.end + 1)))
  {
    hide Kept, OffsetEdits, Replaced, Ordered, StringToken, Verbatim, At;
    var edits := Kept(OffsetEdits(source, at, ds));
    KeptIsOrdered(OffsetEdits(source, at, ds), |source|);
    var e, q := edits[k], source[edits[k].start - 1];
    var pre, rest := AroundEdit(source, edits, k);
    QuotedToken(pre, q, e.text, rest);
    AtBehind(source, e.end + 1, q);
  }

  /** The quotes around an edit that stands apart from its neighbours are kept, and so is the character behind them. */
  lemma KeptAround(source: string, edits: seq<Edit<()>>, k: nat)
    requires Ordered(edits, 0, |source|) && k < |edits| && 0 < edits[k].start <= edits[k].end < |source|
    requires k > 0 ==> edits[k - 1].end < edits[k].start
    requires k + 1 < |edits| ==> edits[k].end + 1 < edits[k + 1].start
    ensures var e, result := edits[k], Replaced(source, edits, 0);
      var p := e.start + Growth(edits[..k]);
      var next := p + |e.text|;
      && 0 < p && next < |result| && result[p..next] == e.text
      && result[p - 1] == source[e.start - 1] && result[next] == source[e.end]
      && (next + 1 < |result| <==> e.end + 1 < |source|)
      && (e.end + 1 < |source| ==> result[next + 1] == source[e.end + 1])
  {
    hide Replaced, Ordered, Growth;
    var e := edits[k];
    OrderedBound(edits, 0, |source|);
    Written(source, edits, 0, k);
    forall j | 0 <= j < k ensures edits[j].end <= e.start - 1 {
      assert edits[j].end <= edits[k - 1].end;
    }
    Untouched(source, edits, 0, k, e.start - 1);
    GrowthNext(edits, k);
    Untouched(source, edits, 0, k + 1, e.end);
    if e.end + 1 < |source| {
      Untouched(source, edits, 0, k + 1, e.end + 1);
    } else {
      LengthBalance(source, edits, 0);
      GrowthAll(edits, k);
    }
  }

  lemma AroundEdit(source: string, edits: seq<Edit<()>>, k: nat) returns (pre: string, rest: string)
    requires Ordered(edits, 0, |source|) && k < |edits| && 0 < edits[k].start <= edits[k].end < |source|
    requires k > 0 ==> edits[k - 1].end < edits[k].start
    requires k + 1 < |edits| ==> edits[k].end + 1 < edits[k + 1].start
    ensures var e := edits[k];
      && Replaced(source, edits, 0) == pre + [source[e.start - 1]] + e.text + [source[e.end]] + rest
      && |pre| + 1 == e.start + Growth(edits[..k])
      && forall q: char :: At(rest, [q], 0) <==> At(source[e.end + 1..], [q], 0)
  {
    hide Replaced, Ordered, At, Growth;
    KeptAround(source, edits, k);
    var e, result := edits[k], Replaced(source, edits, 0);
    var p := e.start + Growth(edits[..k]);
    var next := p + |e.text|;
    pre, rest := result[..p - 1], result[next + 1..];
    CutAround(result, p, next);
    forall q: char ensures At(rest, [q], 0) <==> At(source[e.end + 1..], [q], 0) {
      OneQuote(rest, q, 0);
      OneQuote(source[e.end + 1..], q, 0);
    }
  }

  lemma CutAround(s: string, p: nat, next: nat)
    requires 0 < p <= next < |s|
    ensures s == s[..p - 1] + [s[p - 1]] + s[p..next] + [s[next]] + s[next + 1..]
  {
  }

  lemma {:induction false} GrowthNext(edits: seq<Edit<()>>, k: nat)
    requires k < |edits|
    ensures Growth(edits[..k + 1]) == Growth(edits[..k]) + |edits[k].text| - (edits[k].end - edits[k].start)
    decreases k
  {
    assert edits[..k + 1][1..] == edits[1..][..k];
    if k > 0 {
      assert edits[..k][1..] == edits[1..][..k - 1];
      GrowthNext(edits[1..], k - 1);
    }
  }

  lemma GrowthAll(edits: seq<Edit<()>>, k: nat)
    requires k + 1 == |edits|
    ensures Growth(edits) == Growth(edits[..k + 1])
  {
    assert edits[..k + 1] == edits;
  }

  /** Three quotes in front of a value always defeat `applyFixes`, whatever the replacement. */
  lemma TripleQuotesNeverFit(s: string, a: nat, t: string)
    requires a <= |s| && PlaceOnLine(s, a).Some?
    requires var v := PlaceOnLine(s, a).value.start - 1; At(s, TRIPLE_BASIC, v) || At(s, TRIPLE_LITERAL, v)
    ensures !StringReplaced(s, a, PlaceOnLine(s, a).value, t)
  {
    hide PlaceOnLine, StringReplaced, At, Verbatim;
    RawStringReplaced(s, a, t);
    TripleStarts(s, PlaceOnLine(s, a).value.start - 1);
  }

  lemma ClosesAtOnce(s: string, i: nat)
    requires i < |s| && s[i] == '"'
    ensures CloseOf(s, i, '"') == Some(i)
  {
  }

  /**
   A value in three quotes: `applyFixes` writes between the first two of them, and TOML reads
   a string that ends in the middle of the quotes that are left.
   */
  lemma TripleQuotesBreak()
    ensures var s, t, p := "A=\"\"\"x\"\"\"", "y", Place(3, 3);
      && PlaceOnLine(s, 0) == Some(p) && Rewritten(s, p, t) == "A=\"y\"\"x\"\"\""
      && StringToken(s, 2) == Some(Token(9, "x")) && StringToken(Rewritten(s, p, t), 2) == Some(Token(5, "y"))
      && |Rewritten(s, p, t)| == 10
  {
    hide PlaceOnLine, CloseOf, StringToken, DecodeBasic;
    var s, t, p := "A=\"\"\"x\"\"\"", "y", Place(3, 3);
    assert s[3] == '"' && s[2..5] == TRIPLE_BASIC && s[6..9] == TRIPLE_BASIC;
    ClosesAtOnce(s, 3);
    assert Located(s, 0, 1, 2, p);
    LocatedFound(s, 0, 1, 2, p);
    assert s[..3] == "A=\"" && s[3..] == "\"\"x\"\"\"";
    PlainBasic(t);
    assert Rewritten(s, p, t) == "A=" + ['"'] + t + ['"'] + "\"x\"\"\"";
    YIsVerbatim();
    QuotedToken("A=", '"', t, "\"x\"\"\"");
    TripleX(s);
  }

  lemma YIsVerbatim()
    ensures Verbatim("y", '"')
  {
  }

  /** An escape that TOML does not know: written as it is, it makes the string invalid. */
  lemma UnknownEscapeBreaks()
    ensures var s, t, p := "A=\"x\"", "\\q", Place(3, 4);
      && PlaceOnLine(s, 0) == Some(p) && !StringFits(s, 0, p, t)
      && Rewritten(s, p, t) == "A=\"\\q\"" && StringToken(Rewritten(s, p, t), 2) == None
  {
    hide PlaceOnLine, CloseOf, StringToken, DecodeBasic, BasicQuote, Escapes, SeparatorFirst;
    var s, t, p := "A=\"x\"", "\\q", Place(3, 4);
    var u := "A=\"\\q\"";
    assert s[..3] == "A=\"" && s[4..] == "\"";
    XCloses(s);
    assert Located(s, 0, 1, 2, p);
    LocatedFound(s, 0, 1, 2, p);
    assert t[0] == '\\';
    assert !At(u, ['"', '"', '"'], 2) by { assert u[2..5][1] == '\\'; }
    StartsString(u, 2);
    QIsNoEscape();
    assert u == "A=\"" + t + "\"" + "";
    BasicQuoteBehind("A=\"", t, "");
    QIsContained();
    BetweenParts("A=\"", t, "\"");
    assert u == "A=\"" + t + "\"";
  }

  lemma XCloses(s: string)
    requires s == "A=\"x\""
    ensures CloseOf(s, 3, '"') == Some(4)
  {
    assert CloseOf(s, 4, '"') == Some(4);
  }

  lemma QIsNoEscape()
    ensures !Escapes("\\q", false)
  {
    ShortNames('q');
    assert TomlEscape("\\q") == 0;
  }

  lemma QIsContained()
    ensures Contained("\\q", '"') && '\n' !in "\\q"
  {
    assert "\\q"[2..] == "";
  }

  lemma TripleX(s: string)
    requires s == "A=\"\"\"x\"\"\""
    ensures StringToken(s, 2) == Some(Token(9, "x"))
  {
    hide BasicTriple, DecodeMulti, DecodeBasic, Find, Escapes;
    assert s[2..5] == TRIPLE_BASIC && s[6..9] == TRIPLE_BASIC;
    assert !At(s, TRIPLE_BASIC, 5) by { assert s[5..8][0] == 'x'; }
    FirstTriple(s, 5, 6);
    assert s[5..6] == "x";
    PlainMulti("x");
    PlainEscapes("x", true);
  }

  /** The first `=` of the line stands in the key: the key is rewritten and the value stays. */
  lemma KeyIsRewritten()
    ensures var s, t, p := "\"a='b'\"=\"x\"", "y", Place(4, 5);
      && PlaceOnLine(s, 0) == Some(p) && Rewritten(s, p, t) == "\"a='y'\"=\"x\""
      && ValueOffset(s, 0) == Some(8) && ValueOffset(Rewritten(s, p, t), 0) == Some(8)
      && StringToken(s, 8) == StringToken(Rewritten(s, p, t), 8) == Some(Token(11, "x"))
      && !StringReplaced(s, 0, p, t)
  {
    hide PlaceOnLine, CloseOf, StringToken, ValueOffset;
    var s, t, p := "\"a='b'\"=\"x\"", "y", Place(4, 5);
    var u := "\"a='y'\"=\"x\"";
    KeyLocated(s);
    assert s[..4] == "\"a='" && s[5..] == "'\"=\"x\"" && s[..4] + t + s[5..] == u;
    KeySeparator(s, 'b');
    KeySeparator(u, 'y');
    ReadX(s);
    ReadX(u);
  }

  lemma KeyLocated(s: string)
    requires s == "\"a='b'\"=\"x\""
    ensures PlaceOnLine(s, 0) == Some(Place(4, 5)) && s[3] == '\''
  {
    hide PlaceOnLine;
    assert CloseOf(s, 5, '\'') == Some(5);
    assert CloseOf(s, 4, '\'') == Some(5);
    assert Located(s, 0, 2, 3, Place(4, 5));
    LocatedFound(s, 0, 2, 3, Place(4, 5));
  }

  /** TOML's separator stands behind the quoted key. */
  lemma KeySeparator(s: string, c: char)
    requires s == "\"a='" + [c] + "'\"=\"x\"" && (c == 'b' || c == 'y')
    ensures ValueOffset(s, 0) == Some(8)
  {
    hide LineStop;
    StopShape(s, 0);
    assert forall j | 0 <= j < |s| :: s[j] != '\n';
    assert LineText(s, 0) == s;
    assert s[7] == '=' && forall j | 1 <= j < 6 :: s[j] != '"' && s[j] != '\\';
    FormatAgree.BehindQuotedKey(s, 6);
    assert SkipBlanks(s, 11, 8) == 8;
  }

  lemma ReadX(s: string)
    requires |s| == 11 && s[8] == '"' && s[9] == 'x' && s[10] == '"'
    ensures StringToken(s, 8) == Some(Token(11, "x"))
  {
    hide StringToken, Verbatim, At;
    var pre := s[..8];
    assert s == pre + ['"'] + "x" + ['"'] + "";
    XIsVerbatim();
    QuotedToken(pre, '"', "x", "");
  }

  lemma XIsVerbatim()
    ensures Verbatim("x", '"')
  {
  }
}
