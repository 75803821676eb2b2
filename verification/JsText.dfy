/**
 The few JavaScript string operations the linter's text code is written with.
 A `char` stands for one Unicode scalar value and counts as one unit; surrogates do not occur.
 */
module JsText {
  import opened Wrappers

  /** White space and line terminators, as `trim` and `\s` see them. */
  predicate IsSpace(c: char) {
    || c == ' '
    || '\t' <= c <= '\r'
    || c == '\U{00A0}'
    || c == '\U{1680}'
    || '\U{2000}' <= c <= '\U{200A}'
    || c == '\U{2028}'
    || c == '\U{2029}'
    || c == '\U{202F}'
    || c == '\U{205F}'
    || c == '\U{3000}'
    || c == '\U{FEFF}'
  }

  /** The class `[ \t]`. */
  predicate IsBlank(c: char) {
    c == ' ' || c == '\t'
  }

  predicate AllSpace(s: string) {
    forall c | c in s :: IsSpace(c)
  }

  /** `s.startsWith(p)`. */
  predicate StartsWith(s: string, p: string) {
    |p| <= |s| && s[..|p|] == p
  }

  function TrimStart(s: string): (r: string)
    ensures r == "" || !IsSpace(r[0])
  {
    if s != "" && IsSpace(s[0]) then TrimStart(s[1..]) else s
  }

  function TrimEnd(s: string): (r: string)
    ensures r == "" || !IsSpace(r[|r| - 1])
    decreases |s|
  {
    if s != "" && IsSpace(s[|s| - 1]) then TrimEnd(s[..|s| - 1]) else s
  }

  lemma {:induction false} TrimStartShape(s: string)
    ensures var r := TrimStart(s); |r| <= |s| && s[|s| - |r|..] == r && AllSpace(s[..|s| - |r|])
  {
    if s != "" && IsSpace(s[0]) {
      TrimStartShape(s[1..]);
      var n := |s| - |TrimStart(s)|;
      assert s[..n] == [s[0]] + s[1..][..n - 1];
    }
  }

  lemma {:induction false} TrimEndShape(s: string)
    ensures var r := TrimEnd(s); |r| <= |s| && s[..|r|] == r && AllSpace(s[|r|..])
    decreases |s|
  {
    if s != "" && IsSpace(s[|s| - 1]) {
      var front := s[..|s| - 1];
      TrimEndShape(front);
      var r := TrimEnd(front);
      assert s[..|r|] == front[..|r|];
      assert s[|r|..] == front[|r|..] + [s[|s| - 1]];
    }
  }

  /** `s.trim()`. */
  function Trim(s: string): (r: string)
    ensures r == "" || (!IsSpace(r[0]) && !IsSpace(r[|r| - 1]))
  {
    var t := TrimStart(s);
    TrimEndShape(t);
    TrimEnd(t)
  }

  lemma CutIn(s: string, k: nat)
    requires k <= |s|
    ensures s == s[..k] + s[k..]
  {
  }

  lemma Regroup(a: string, b: string, c: string)
    ensures a + (b + c) == a + b + c
  {
  }

  lemma TrimParts(s: string) returns (w1: string, w2: string)
    ensures s == w1 + Trim(s) + w2 && AllSpace(w1) && AllSpace(w2)
  {
    hide AllSpace, IsSpace, TrimStart, TrimEnd;
    var t := TrimStart(s);
    TrimStartShape(s);
    TrimEndShape(t);
    w1, w2 := s[..|s| - |t|], t[|TrimEnd(t)|..];
    CutIn(s, |s| - |t|);
    CutIn(t, |TrimEnd(t)|);
    Regroup(w1, TrimEnd(t), w2);
  }

  lemma TrimFixed(s: string)
    requires s == "" || (!IsSpace(s[0]) && !IsSpace(s[|s| - 1]))
    ensures Trim(s) == s
  {
  }

  /** Trimming takes the white space off both ends, and nothing else. */
  lemma {:induction false} TrimPadded(w1: string, x: string, w2: string)
    requires AllSpace(w1) && AllSpace(w2) && x != "" && !IsSpace(x[0]) && !IsSpace(x[|x| - 1])
    ensures Trim(w1 + x + w2) == x
  {
    hide IsSpace, TrimEnd;
    TrimFront(w1, x + w2);
    assert w1 + x + w2 == w1 + (x + w2);
    TrimBack(x, w2);
  }

  lemma {:induction false} TrimFront(w: string, x: string)
    requires AllSpace(w) && x != "" && !IsSpace(x[0])
    ensures TrimStart(w + x) == x
  {
    if w == "" {
      assert w + x == x;
    } else {
      assert (w + x)[1..] == w[1..] + x && (w + x)[0] == w[0];
      TrimFront(w[1..], x);
    }
  }

  lemma {:induction false} TrimBack(x: string, w: string)
    requires AllSpace(w) && x != "" && !IsSpace(x[|x| - 1])
    ensures TrimEnd(x + w) == x
    decreases |w|
  {
    if w == "" {
      assert x + w == x;
    } else {
      assert (x + w)[..|x + w| - 1] == x + w[..|w| - 1];
      TrimBack(x, w[..|w| - 1]);
    }
  }

  /** The parts of `s` between occurrences of `sep`, as `s.split(sep)`. */
  function Split(s: string, sep: char): (parts: seq<string>)
    ensures |parts| > 0
  {
    if s == "" then [""]
    else
      var rest := Split(s[1..], sep);
      if s[0] == sep then [""] + rest else [[s[0]] + rest[0]] + rest[1..]
  }

  /** The parts hold no separator, and joining them gives the text back. */
  lemma {:induction false} SplitParts(s: string, sep: char)
    ensures forall p | p in Split(s, sep) :: sep !in p
    ensures Join(Split(s, sep), sep) == s
  {
    if s != "" {
      SplitParts(s[1..], sep);
      var rest := Split(s[1..], sep);
      assert s == [s[0]] + s[1..];
      if s[0] == sep {
        JoinMore("", rest, sep);
        assert Split(s, sep) == [""] + rest;
      } else {
        var parts := [[s[0]] + rest[0]] + rest[1..];
        assert Split(s, sep) == parts;
        JoinLonger(s[0], rest, sep);
        assert rest[0] in rest && forall p | p in parts[1..] :: p in rest;
      }
    }
  }

  lemma JoinMore(p: string, rest: seq<string>, sep: char)
    requires rest != []
    ensures Join([p] + rest, sep) == p + [sep] + Join(rest, sep)
  {
    assert ([p] + rest)[1..] == rest;
  }

  lemma JoinLonger(c: char, rest: seq<string>, sep: char)
    requires rest != []
    ensures Join([[c] + rest[0]] + rest[1..], sep) == [c] + Join(rest, sep)
  {
    var parts := [[c] + rest[0]] + rest[1..];
    assert parts[1..] == rest[1..];
    if |rest| > 1 {
      Regroup([c], rest[0], [sep]);
      Regroup([c], rest[0] + [sep], Join(rest[1..], sep));
    }
  }

  /** `parts.join(sep)` for a one-character separator. */
  function Join(parts: seq<string>, sep: char): string {
    if parts == [] then ""
    else if |parts| == 1 then parts[0]
    else parts[0] + [sep] + Join(parts[1..], sep)
  }

  lemma {:induction false} SplitOfHead(p: string, sep: char, rest: string)
    requires sep !in p
    ensures Split(p + [sep] + rest, sep) == [p] + Split(rest, sep)
    ensures Split(p, sep) == [p]
  {
    hide Join;
    if p == "" {
      assert p + [sep] + rest == [sep] + rest;
      assert ([sep] + rest)[1..] == rest;
    } else {
      var tail := p[1..];
      SplitOfHead(tail, sep, rest);
      assert (p + [sep] + rest)[1..] == tail + [sep] + rest && (p + [sep] + rest)[0] == p[0];
      assert [p[0]] + tail == p;
      assert [[p[0]] + tail] + ([tail] + Split(rest, sep))[1..] == [p] + Split(rest, sep);
      assert [[p[0]] + tail] + [tail][1..] == [p];
    }
  }

  /** Joining lines that hold no separator and splitting again gives the lines back. */
  lemma {:induction false} SplitOfJoin(parts: seq<string>, sep: char)
    requires parts != [] && forall p | p in parts :: sep !in p
    ensures Split(Join(parts, sep), sep) == parts
  {
    if |parts| == 1 {
      SplitOfHead(parts[0], sep, "");
    } else {
      SplitOfHead(parts[0], sep, Join(parts[1..], sep));
      SplitOfJoin(parts[1..], sep);
    }
  }

  /** `p` stands in `s` at offset `i`. */
  predicate At(s: string, p: string, i: nat) {
    i + |p| <= |s| && s[i..i + |p|] == p
  }

  /** `s.indexOf(p, from)`. */
  function Find(s: string, p: string, from: nat): (r: Option<nat>)
    ensures r.Some? ==> from <= r.value && At(s, p, r.value) && forall i | from <= i < r.value :: !At(s, p, i)
    ensures r.None? ==> forall i | from <= i :: !At(s, p, i)
    decreases |s| - from
  {
    if At(s, p, from) then Some(from)
    else if from >= |s| then None
    else Find(s, p, from + 1)
  }

  lemma FindFirst(s: string, x: string, from: nat, i: nat)
    requires from <= i && At(s, x, i) && forall j | from <= j < i :: !At(s, x, j)
    ensures Find(s, x, from) == Some(i)
  {
    hide At;
  }

  /** A slice inside a common prefix is the same slice of both. */
  lemma SliceOfPrefix(r: string, u: string, n: nat, i: nat, j: nat)
    requires n <= |r| && n <= |u| && r[..n] == u[..n] && i <= j <= n
    ensures r[i..j] == u[i..j]
    ensures forall k | i <= k < j :: r[k] == u[k]
  {
    assert r[..n][i..j] == r[i..j] && u[..n][i..j] == u[i..j];
    forall k | i <= k < j ensures r[k] == u[k] {
      assert r[..n][k] == u[..n][k];
    }
  }

  /** A slice of a slice. */
  lemma SliceOfSlice(s: string, a: nat, b: nat, i: nat, j: nat)
    requires a <= b <= |s| && i <= j <= b - a
    ensures s[a..b][i..j] == s[a + i..a + j]
  {
    var x, y := s[a..b][i..j], s[a + i..a + j];
    assert forall k | 0 <= k < |x| :: x[k] == s[a + i + k] && y[k] == s[a + i + k];
    assert x == y;
  }
}
