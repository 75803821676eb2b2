/**
 The other fix engine finds values too: the text between the quotes of a string that ends on
 its line, and any other value up to the blanks in front of a comment or of the line's end.
 */
module OffsetFinds {
  import opened JsText
  import opened Wrappers
  import opened Splices
  import opened Fix
  import opened FixLines
  import opened OffsetFix

  /** A line on which the first `=` stands behind `lead`, and `v` behind `gaps`. */
  datatype Line = Line(lead: string, gaps: string, v: string, rest: string)

  function Front(l: Line): string {
    l.lead + "=" + l.gaps
  }

  function Text(l: Line): string {
    Front(l) + l.v + l.rest
  }

  predicate AllBlank(s: string) {
    forall c | c in s :: c == ' ' || c == '\t'
  }

  predicate IsLine(l: Line) {
    && '=' !in l.lead && '\n' !in Front(l) + l.v && AllBlank(l.gaps)
  }

  /** A string with what stands behind it on the page; nothing else is asked of `rest`. */
  predicate IsQuoted(v: string, q: char, body: string) {
    (q == '"' || q == '\'') && v == [q] + body + [q] && Contained(body, q)
  }

  /** Any other value: what follows it are blanks in front of a comment, of the line's end or of the end. */
  ghost predicate IsPlain(v: string, rest: string) {
    && v != "" && v[0] != '"' && v[0] != '\'' && !AllBlank([v[0]]) && !AllBlank([v[|v| - 1]]) && '#' !in v
    && exists blanks: string, more :: rest == blanks + more && AllBlank(blanks)
         && (more == "" || more[0] == '#' || more[0] == '\n')
  }

  // ----- The line and its separator -----

  lemma LineReached(before: string, l: Line, position: Position)
    requires Boundary(before) && position.line == Breaks(before) + 1
    ensures LineAt(before + Text(l), position.line, 0) == Some(|before|)
  {
    hide LineAt, LineStarts, Breaks, Boundary, LineLength;
    var s := before + Text(l);
    LineAfter(before, Text(l));
    SameLineStart("", s, position.line) by {
      hide *;
      EmptyIsBoundary();
    }
    EmptyIsBoundary();
    assert "" + s == s;
  }

  lemma EmptyIsBoundary()
    ensures Boundary("") && Breaks("") == 0
  {
  }

  /** The places of the line's parts. */
  lemma LineParts(before: string, l: Line)
    requires IsLine(l)
    ensures var s, a, eq, i := before + Text(l), |before|, |before + l.lead|, |before + Front(l)|;
      && s[eq] == '=' && (forall j | a <= j < eq :: s[j] != '=')
      && (forall j | eq < j < i :: IsBlank(s[j]))
      && (forall j | a <= j < i + |l.v| :: s[j] != '\n')
      && s[i..i + |l.v|] == l.v && s[i + |l.v|..] == l.rest
  {
    hide IsBlank;
    var s, a, eq, i := before + Text(l), |before|, |before + l.lead|, |before + Front(l)|;
    forall j | a <= j < eq ensures s[j] != '=' {
      assert s[j] == l.lead[j - a];
    }
    forall j | eq < j < i ensures IsBlank(s[j]) {
      assert s[j] == l.gaps[j - eq - 1] && l.gaps[j - eq - 1] in l.gaps;
      BlankChars(s[j]);
    }
    forall j | a <= j < i + |l.v| ensures s[j] != '\n' {
      assert s[j] == (Front(l) + l.v)[j - a];
    }
  }

  lemma BlankChars(c: char)
    ensures IsBlank(c) <==> c == ' ' || c == '\t'
  {
  }

  // ----- Main results -----

  /** `offsetOf` and the value search: the text between the quotes of every string that ends on its line. */
  lemma StringIsFound(before: string, l: Line, q: char, body: string, position: Position)
    requires Boundary(before) && position.line == Breaks(before) + 1 && IsLine(l) && IsQuoted(l.v, q, body)
    ensures var start := |before + Front(l)| + 1;
      OffsetSpan(before + Text(l), position) == Some(Place(start, start + |body|))
  {
    hide LineAt, PlaceOnLine, Contained, CloseOf, Breaks, Boundary, IsLine;
    var s, a, eq, i := before + Text(l), |before|, |before + l.lead|, |before + Front(l)|;
    LineReached(before, l, position);
    LineParts(before, l);
    assert s[i] == l.v[0] == q;
    ClosesBehind(before + Front(l) + [q], body, q, l.rest);
    assert before + Front(l) + [q] + body + [q] + l.rest == s;
    assert s[i] != '\n' && !IsBlank(s[i]);
    LocatedFound(s, a, eq, i, Place(i + 1, i + 1 + |body|));
  }

  /** And any other value, without the blanks and the comment behind it. */
  lemma PlainIsFound(before: string, l: Line, position: Position)
    requires Boundary(before) && position.line == Breaks(before) + 1 && IsLine(l) && IsPlain(l.v, l.rest)
    ensures var start := |before + Front(l)|;
      OffsetSpan(before + Text(l), position) == Some(Place(start, start + |l.v|))
  {
    hide LineAt, PlaceOnLine, CloseOf, Breaks, Boundary, IsLine, IsPlain;
    var s, a, eq, i := before + Text(l), |before|, |before + l.lead|, |before + Front(l)|;
    LineReached(before, l, position);
    LineParts(before, l);
    PlainEnds(s, i, l.v, l.rest);
    LocatedFound(s, a, eq, i, Place(i, i + |l.v|));
  }

  lemma PlainEnds(s: string, i: nat, v: string, rest: string)
    requires IsPlain(v, rest) && i + |v| <= |s| && s[i..i + |v|] == v && s[i + |v|..] == rest && '\n' !in v
    ensures v != "" && i < |s| && !IsQuote(s[i]) && !IsBlank(s[i]) && BareEndsAt(s, i, i + |v|)
  {
    var end := i + |v|;
    assert s[i] == v[0] && s[end - 1] == v[|v| - 1];
    assert v[0] in [v[0]] && v[|v| - 1] in [v[|v| - 1]];
    forall j | i <= j < end ensures s[j] != '#' && s[j] != '\n' {
      assert s[j] == v[j - i];
    }
    var blanks: string, more :| rest == blanks + more && AllBlank(blanks)
      && (more == "" || more[0] == '#' || more[0] == '\n');
    var h := end + |blanks|;
    assert h < |s| ==> s[h] == more[0];
    forall j | end <= j < h ensures IsBlank(s[j]) {
      assert s[j] == rest[j - end] == blanks[j - end] && blanks[j - end] in blanks;
    }
    assert StopsAt(s, end, h);
  }

  /** A diagnostic at such a place whose fix differs asks for exactly that edit. */
  lemma EditIsAsked(source: string, position: Position, p: Place, at: string -> Option<Position>, d: Diagnostic)
    requires OffsetSpan(source, position) == Some(p)
    requires d.path.Some? && d.path.value != "" && at(d.path.value) == Some(position)
    requires d.fix.Some? && source[p.start..p.end] != d.fix.value
    ensures Kept(OffsetEdits(source, at, [d])) == [Edit(p.start, p.end, d.fix.value, ())]
    ensures ApplySpec(source, at, [d]) == source[..p.start] + d.fix.value + source[p.end..]
  {
    hide OffsetSpan, Kept, Replaced, Ordered;
    var e := Edit(p.start, p.end, d.fix.value, ());
    assert [d][..|[d]| - 1] == [] && OffsetEdits(source, at, []) == [];
    assert OffsetEdits(source, at, [d]) == [] + [e] == [e];
    OnlyEditKept(e);
    KeptIsOrdered([e], |source|);
    OnlyEditReplaced(source, e);
  }
}
