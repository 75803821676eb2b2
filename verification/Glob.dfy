/**
 `expandGlob` and `walk` of `src/glob.ts` over a directory tree: the expansion is
 sound, complete, sorted and without duplicates.
 */
module Glob {
  import opened JsText
  import opened Wrappers
  import opened GlobSegment
  import opened CodePoints

  /** One entry of a directory, as `readdir` reports it. */
  datatype Node = File | Symlink | Other | Dir(entries: seq<DirEntry>)

  datatype DirEntry = DirEntry(name: string, node: Node)

  function TreeSize(entries: seq<DirEntry>): nat {
    if entries == [] then 0 else 1 + NodeSize(entries[0].node) + TreeSize(entries[1..])
  }

  function NodeSize(node: Node): nat {
    match node
    case Dir(entries) => 1 + TreeSize(entries)
    case _ => 0
  }

  // ----- Patterns -----

  /** Dotfiles are opt-in. */
  predicate Hidden(name: string, segment: string) {
    StartsWith(name, ".") && !StartsWith(segment, ".")
  }

  const GLOBSTAR: string := "**"

  predicate SegmentsValid(segments: seq<string>) {
    forall s | s in segments :: s == GLOBSTAR || TokensValid(Tokens(s))
  }

  /**
   The names of a path match the segments: a globstar stands for zero or more
   names that do not start with a dot, any other segment for one name it accepts, and for one
   that starts with a dot only if the segment does.
   */
  ghost predicate PathMatches(segments: seq<string>, names: seq<string>)
    decreases |segments|
  {
    if segments == [] then names == []
    else if segments[0] == GLOBSTAR then
      exists k | 0 <= k <= |names| ::
        (forall i | 0 <= i < k :: !StartsWith(names[i], ".")) && PathMatches(segments[1..], names[k..])
    else
      && names != [] && (StartsWith(names[0], ".") ==> StartsWith(segments[0], "."))
      && TokensValid(Tokens(segments[0])) && SegmentAccepts(segments[0], names[0])
      && PathMatches(segments[1..], names[1..])
  }

  /** `names` leads from a directory with these entries to a node. */
  ghost predicate Leads(entries: seq<DirEntry>, names: seq<string>, node: Node)
    decreases |names|
  {
    names != [] && exists e | e in entries ::
      e.name == names[0]
      && if |names| == 1 then e.node == node else e.node.Dir? && Leads(e.node.entries, names[1..], node)
  }

  /** `path.join` of a directory and an entry name. */
  function JoinPath(dir: string, name: string): string {
    if dir == "." then name
    else if dir != "" && dir[|dir| - 1] == '/' then dir + name
    else dir + "/" + name
  }

  function PathOf(dir: string, names: seq<string>): string
    decreases |names|
  {
    if names == [] then dir else PathOf(JoinPath(dir, names[0]), names[1..])
  }

  /** The files and links under a directory whose path matches the segments; never a directory. */
  ghost predicate Matches(dir: string, entries: seq<DirEntry>, segments: seq<string>, path: string)
  {
    exists names, node ::
      Leads(entries, names, node) && (node.File? || node.Symlink?) && PathMatches(segments, names) && path == PathOf(dir, names)
  }

  // ----- One directory at a time -----

  /** Segments as `expandGlob` hands them to `walk`: never empty, never ending in a globstar, without backslashes. */
  ghost predicate Walkable(segments: seq<string>) {
    && segments != [] && segments[|segments| - 1] != GLOBSTAR
    && forall s | s in segments :: '\\' !in s
  }

  lemma WalkableTail(segments: seq<string>)
    requires Walkable(segments)
    ensures segments[1..] != [] ==> Walkable(segments[1..])
    ensures segments[0] == GLOBSTAR ==> segments[1..] != []
  {
  }

  lemma {:induction false} NeedsName(segments: seq<string>, names: seq<string>)
    requires Walkable(segments) && PathMatches(segments, names)
    ensures names != []
    decreases |segments|
  {
    hide SegmentAccepts, Tokens;
    WalkableTail(segments);
    if segments[0] == GLOBSTAR {
      var k :| 0 <= k <= |names| && PathMatches(segments[1..], names[k..]);
      NeedsName(segments[1..], names[k..]);
    }
  }

  /** What a globstar finds by descending into `e` and staying a globstar. */
  ghost predicate Below(dir: string, e: DirEntry, segments: seq<string>, path: string)
  {
    e.node.Dir? && !Hidden(e.name, GLOBSTAR) && Matches(JoinPath(dir, e.name), e.node.entries, segments, path)
  }

  /** What any other segment finds at `e`. */
  ghost predicate At(dir: string, e: DirEntry, segments: seq<string>, path: string)
    requires segments != []
  {
    && !Hidden(e.name, segments[0]) && TokensValid(Tokens(segments[0])) && SegmentAccepts(segments[0], e.name)
    && if segments[1..] == [] then (e.node.File? || e.node.Symlink?) && path == JoinPath(dir, e.name)
       else e.node.Dir? && Matches(JoinPath(dir, e.name), e.node.entries, segments[1..], path)
  }

  lemma LeadsInto(entries: seq<DirEntry>, names: seq<string>, node: Node) returns (e: DirEntry)
    requires Leads(entries, names, node)
    ensures e in entries && e.name == names[0]
    ensures if |names| == 1 then e.node == node else e.node.Dir? && Leads(e.node.entries, names[1..], node)
  {
    e :| e in entries && e.name == names[0]
      && if |names| == 1 then e.node == node else e.node.Dir? && Leads(e.node.entries, names[1..], node);
  }

  lemma LeadsFrom(entries: seq<DirEntry>, e: DirEntry, names: seq<string>, node: Node)
    requires e in entries && names != [] && e.name == names[0]
    requires if |names| == 1 then e.node == node else e.node.Dir? && Leads(e.node.entries, names[1..], node)
    ensures Leads(entries, names, node)
  {
  }

  lemma NoSegments(names: seq<string>)
    requires PathMatches([], names)
    ensures names == []
  {
  }

  /** A globstar passes over every name with a leading dot, another segment over those it does not name itself. */
  lemma HiddenMeans(name: string, segment: string)
    ensures Hidden(name, segment) <==> StartsWith(name, ".") && !StartsWith(segment, ".")
    ensures Hidden(name, GLOBSTAR) <==> StartsWith(name, ".")
  {
    assert GLOBSTAR[..1] == "*" && "*"[0] != "."[0];
  }

  lemma GlobstarTakes(segments: seq<string>, names: seq<string>) returns (k: nat)
    requires segments != [] && segments[0] == GLOBSTAR
    requires PathMatches(segments, names)
    ensures k <= |names| && (forall i | 0 <= i < k :: !Hidden(names[i], GLOBSTAR))
    ensures PathMatches(segments[1..], names[k..])
  {
    hide Hidden, SegmentAccepts, StartsWith;
    k :| 0 <= k <= |names| && (forall i | 0 <= i < k :: !StartsWith(names[i], "."))
      && PathMatches(segments[1..], names[k..]);
    forall i | 0 <= i < k ensures !Hidden(names[i], GLOBSTAR) {
      HiddenMeans(names[i], "");
    }
  }

  lemma GlobstarTaken(segments: seq<string>, names: seq<string>, k: nat)
    requires segments != [] && segments[0] == GLOBSTAR
    requires k <= |names| && (forall i | 0 <= i < k :: !Hidden(names[i], GLOBSTAR))
    requires PathMatches(segments[1..], names[k..])
    ensures PathMatches(segments, names)
  {
    hide Hidden, SegmentAccepts, StartsWith;
    forall i | 0 <= i < k ensures !StartsWith(names[i], ".") {
      HiddenMeans(names[i], "");
    }
  }

  lemma GlobstarFinds(dir: string, entries: seq<DirEntry>, segments: seq<string>, path: string)
    requires Walkable(segments) && segments[0] == GLOBSTAR
    requires Matches(dir, entries, segments, path)
    ensures Matches(dir, entries, segments[1..], path) || exists e | e in entries :: Below(dir, e, segments, path)
  {
    hide Hidden, Leads;
    WalkableTail(segments);
    var names, node :| Leads(entries, names, node) && (node.File? || node.Symlink?) && PathMatches(segments, names)
      && path == PathOf(dir, names);
    hide PathMatches;
    var k := GlobstarTakes(segments, names);
    if k == 0 {
      assert names[0..] == names;
    } else {
      NeedsName(segments[1..], names[k..]);
      var e := LeadsInto(entries, names, node);
      var rest := names[1..];
      assert rest[k - 1..] == names[k..];
      assert forall i | 0 <= i < k - 1 :: rest[i] == names[i + 1];
      GlobstarTaken(segments, rest, k - 1);
      assert Below(dir, e, segments, path);
    }
  }

  lemma GlobstarFindsBelow(dir: string, entries: seq<DirEntry>, e: DirEntry, segments: seq<string>, path: string)
    requires Walkable(segments) && segments[0] == GLOBSTAR && e in entries && Below(dir, e, segments, path)
    ensures Matches(dir, entries, segments, path)
  {
    hide Hidden, Leads, StartsWith;
    WalkableTail(segments);
    var rest, node :| Leads(e.node.entries, rest, node) && (node.File? || node.Symlink?) && PathMatches(segments, rest)
      && path == PathOf(JoinPath(dir, e.name), rest);
    hide PathMatches;
    var k := GlobstarTakes(segments, rest);
    var names := [e.name] + rest;
    assert names[1..] == rest && names[k + 1..] == rest[k..];
    assert forall i | 0 < i < k + 1 :: names[i] == rest[i - 1];
    GlobstarTaken(segments, names, k + 1);
    LeadsNonempty(e.node.entries, rest, node);
    LeadsFrom(entries, e, names, node);
  }

  lemma LeadsNonempty(entries: seq<DirEntry>, names: seq<string>, node: Node)
    requires Leads(entries, names, node)
    ensures names != []
  {
  }

  lemma GlobstarFindsHere(dir: string, entries: seq<DirEntry>, segments: seq<string>, path: string)
    requires Walkable(segments) && segments[0] == GLOBSTAR
    requires Matches(dir, entries, segments[1..], path)
    ensures Matches(dir, entries, segments, path)
  {
    hide Hidden, Leads;
    var names, node :| Leads(entries, names, node) && (node.File? || node.Symlink?) && PathMatches(segments[1..], names)
      && path == PathOf(dir, names);
    assert names[0..] == names;
    assert PathMatches(segments, names);
  }

  lemma SegmentFinds(dir: string, entries: seq<DirEntry>, segments: seq<string>, path: string)
    requires Walkable(segments) && segments[0] != GLOBSTAR
    requires Matches(dir, entries, segments, path)
    ensures exists e | e in entries :: At(dir, e, segments, path)
  {
    hide Hidden, Leads, SegmentAccepts, Tokens;
    WalkableTail(segments);
    var names, node :| Leads(entries, names, node) && (node.File? || node.Symlink?) && PathMatches(segments, names)
      && path == PathOf(dir, names);
    LeadsNonempty(entries, names, node);
    var e := LeadsInto(entries, names, node);
    HiddenMeans(e.name, segments[0]);
    if segments[1..] == [] {
      assert PathMatches(segments[1..], names[1..]);
      NoSegments(names[1..]);
      assert names == [e.name];
      assert path == PathOf(JoinPath(dir, e.name), []);
    } else {
      NeedsName(segments[1..], names[1..]);
      assert Matches(JoinPath(dir, e.name), e.node.entries, segments[1..], path);
    }
    assert At(dir, e, segments, path);
  }

  lemma SegmentFindsAt(dir: string, entries: seq<DirEntry>, e: DirEntry, segments: seq<string>, path: string)
    requires Walkable(segments) && segments[0] != GLOBSTAR
    requires e in entries && At(dir, e, segments, path)
    ensures Matches(dir, entries, segments, path)
  {
    hide Hidden, Leads, SegmentAccepts, Tokens;
    HiddenMeans(e.name, segments[0]);
    if segments[1..] == [] {
      var names := [e.name];
      assert names[1..] == [];
      LeadsFrom(entries, e, names, e.node);
      assert PathMatches(segments, names);
      assert PathOf(dir, names) == path;
    } else {
      var rest, node :| Leads(e.node.entries, rest, node) && (node.File? || node.Symlink?) && PathMatches(segments[1..], rest)
        && path == PathOf(JoinPath(dir, e.name), rest);
      var names := [e.name] + rest;
      assert names[1..] == rest;
      LeadsNonempty(e.node.entries, rest, node);
      LeadsFrom(entries, e, names, node);
      assert PathMatches(segments, names);
    }
  }

  // ----- The walk -----

  /** The `matches` array the recursive walk pushes into. */
  class Collector {
    var paths: seq<string>

    constructor ()
      ensures paths == []
    {
      paths := [];
    }
  }

  lemma EntrySmaller(entries: seq<DirEntry>, i: nat)
    requires i < |entries|
    ensures NodeSize(entries[i].node) < TreeSize(entries)
  {
    if i > 0 { EntrySmaller(entries[1..], i - 1); }
  }

  lemma NoEntries(dir: string, segments: seq<string>)
    ensures forall p :: !Matches(dir, [], segments, p)
  {
    forall p ensures !Matches(dir, [], segments, p) {
      forall names, node ensures !Leads([], names, node) { }
    }
  }

  /**
   Collects the matching files under `dir`. The result is false when a segment
   with an invalid class stops the walk with a SyntaxError.
   */
  method Walk(dir: string, entries: seq<DirEntry>, segments: seq<string>, matches: Collector) returns (ok: bool)
    requires Walkable(segments)
    modifies matches
    ensures SegmentsValid(segments) ==> ok
    ensures ok ==> forall p :: p in matches.paths <==> p in old(matches.paths) || Matches(dir, entries, segments, p)
    decreases TreeSize(entries), |segments|, 1
  {
    hide Matches, Tokens, Below, At, TreeSize;
    var head, tail := segments[0], segments[1..];
    if entries == [] {
      NoEntries(dir, segments);
      return true;
    }
    WalkableTail(segments);
    if SegmentsValid(segments) {
      ValidTail(segments);
    }
    if head == GLOBSTAR {
      ok := Walk(dir, entries, tail, matches);
      if !ok {
        return;
      }
      ok := Descend(dir, entries, segments, matches);
      if ok {
        forall p ensures p in matches.paths <==> p in old(matches.paths) || Matches(dir, entries, segments, p) {
          GlobstarMeans(dir, entries, segments, p);
        }
      }
    } else {
      ok := Visit(dir, entries, segments, matches);
      if ok {
        forall p ensures p in matches.paths <==> p in old(matches.paths) || Matches(dir, entries, segments, p) {
          SegmentMeans(dir, entries, segments, p);
        }
      }
    }
  }

  lemma ValidTail(segments: seq<string>)
    requires segments != [] && SegmentsValid(segments)
    ensures SegmentsValid(segments[1..]) && (segments[0] != GLOBSTAR ==> TokensValid(Tokens(segments[0])))
  {
    hide Tokens;
    assert segments[0] in segments;
  }

  lemma GlobstarMeans(dir: string, entries: seq<DirEntry>, segments: seq<string>, path: string)
    requires Walkable(segments) && segments[0] == GLOBSTAR
    ensures Matches(dir, entries, segments, path) <==>
      Matches(dir, entries, segments[1..], path) || exists j: nat :: j < |entries| && Below(dir, entries[j], segments, path)
  {
    hide Matches, Below;
    if Matches(dir, entries, segments, path) {
      GlobstarFinds(dir, entries, segments, path);
    }
    if Matches(dir, entries, segments[1..], path) {
      GlobstarFindsHere(dir, entries, segments, path);
    }
    if j: nat :| j < |entries| && Below(dir, entries[j], segments, path) {
      GlobstarFindsBelow(dir, entries, entries[j], segments, path);
    }
  }

  lemma SegmentMeans(dir: string, entries: seq<DirEntry>, segments: seq<string>, path: string)
    requires Walkable(segments) && segments[0] != GLOBSTAR
    ensures Matches(dir, entries, segments, path) <==>
      exists j: nat :: j < |entries| && At(dir, entries[j], segments, path)
  {
    hide Matches, At;
    if Matches(dir, entries, segments, path) {
      SegmentFinds(dir, entries, segments, path);
    }
    if j: nat :| j < |entries| && At(dir, entries[j], segments, path) {
      SegmentFindsAt(dir, entries, entries[j], segments, path);
    }
  }

  /** The globstar's loop: descends into every directory that is not hidden. */
  method Descend(dir: string, entries: seq<DirEntry>, segments: seq<string>, matches: Collector) returns (ok: bool)
    requires Walkable(segments) && segments[0] == GLOBSTAR
    modifies matches
    ensures SegmentsValid(segments) ==> ok
    ensures ok ==> forall p :: p in matches.paths <==>
      p in old(matches.paths) || exists j: nat :: j < |entries| && Below(dir, entries[j], segments, p)
    decreases TreeSize(entries), |segments|, 0
  {
    hide Matches, Tokens, TreeSize, Hidden, SegmentsValid;
    for i := 0 to |entries|
      invariant forall p :: p in matches.paths <==>
        p in old(matches.paths) || exists j: nat :: j < i && Below(dir, entries[j], segments, p)
    {
      var entry := entries[i];
      if !entry.node.Dir? || Hidden(entry.name, GLOBSTAR) {
        continue;
      }
      EntrySmaller(entries, i);
      DirSize(entry.node);
      ghost var before := matches.paths;
      ok := Walk(JoinPath(dir, entry.name), entry.node.entries, segments, matches);
      if !ok {
        return;
      }
      forall p ensures p in matches.paths <==>
        p in old(matches.paths) || exists j: nat :: j < i + 1 && Below(dir, entries[j], segments, p)
      {
        assert Below(dir, entries[i], segments, p) <==>
          Matches(JoinPath(dir, entry.name), entry.node.entries, segments, p);
        assert p in matches.paths <==> p in before || Below(dir, entries[i], segments, p);
      }
    }
    return true;
  }

  lemma DirSize(node: Node)
    requires node.Dir?
    ensures TreeSize(node.entries) < NodeSize(node)
  {
  }

  /** The loop of any other segment: files at the last one, directories before. */
  method Visit(dir: string, entries: seq<DirEntry>, segments: seq<string>, matches: Collector) returns (ok: bool)
    requires Walkable(segments) && segments[0] != GLOBSTAR
    modifies matches
    ensures SegmentsValid(segments) ==> ok
    ensures ok ==> forall p :: p in matches.paths <==>
      p in old(matches.paths) || exists j: nat :: j < |entries| && At(dir, entries[j], segments, p)
    decreases TreeSize(entries), |segments|, 0
  {
    hide Matches, Tokens, TreeSize, Hidden, SegmentsValid, RegexSource, ParseRegex, RegexMatches, SegmentAccepts, TokensValid;
    var head, tail := segments[0], segments[1..];
    WalkableTail(segments);
    if SegmentsValid(segments) { ValidTail(segments); }
    var matchesSegment := SegmentRegex(head);
    if matchesSegment.None? {
      return false;
    }
    for i := 0 to |entries|
      invariant forall p :: p in matches.paths <==>
        p in old(matches.paths) || exists j: nat :: j < i && At(dir, entries[j], segments, p)
    {
      var entry := entries[i];
      ghost var before := matches.paths;
      if Hidden(entry.name, head) || !RegexMatches(matchesSegment.value, entry.name) {
        continue;
      }
      var next := JoinPath(dir, entry.name);
      if tail == [] {
        if entry.node.File? || entry.node.Symlink? {
          matches.paths := matches.paths + [next];
        }
      } else if entry.node.Dir? {
        EntrySmaller(entries, i);
        DirSize(entry.node);
        ok := Walk(next, entry.node.entries, tail, matches);
        if !ok {
          return;
        }
      }
      forall p ensures p in matches.paths <==>
        p in old(matches.paths) || exists j: nat :: j < i + 1 && At(dir, entries[j], segments, p)
      {
        assert p in matches.paths <==> p in before || At(dir, entries[i], segments, p);
      }
    }
    return true;
  }

  // ----- expandGlob -----

  predicate HasMagic(pattern: string) {
    exists c | c in pattern :: c == '*' || c == '?' || c == '['
  }

  function Slashes(pattern: string): (r: string)
    ensures |r| == |pattern|
  {
    seq(|pattern|, i requires 0 <= i < |pattern| => if pattern[i] == '\\' then '/' else pattern[i])
  }

  function NonEmpty(parts: seq<string>): (r: seq<string>)
    ensures forall p | p in r :: p != ""
  {
    if parts == [] then [] else (if parts[0] == "" then [] else [parts[0]]) + NonEmpty(parts[1..])
  }

  /** The pattern's segments; a trailing globstar means everything underneath. */
  function PatternSegments(pattern: string): seq<string> {
    var normalised := Slashes(pattern);
    var root := if StartsWith(normalised, "/") then 1 else 0;
    var segments := NonEmpty(Split(normalised[root..], '/'));
    if segments != [] && segments[|segments| - 1] == GLOBSTAR then segments + ["*"] else segments
  }

  function StartDir(pattern: string): string {
    if StartsWith(Slashes(pattern), "/") then "/" else "."
  }

  /** Everything up to the first segment with magic. */
  function StaticPrefix(segments: seq<string>): (n: nat)
    ensures n <= |segments|
  {
    if segments == [] || HasMagic(segments[0]) then 0 else 1 + StaticPrefix(segments[1..])
  }

  /** What `expandGlob` promises for a file system snapshot. */
  ghost predicate Expands(pattern: string, isFile: string -> bool, readDir: string -> seq<DirEntry>, path: string) {
    var segments := PatternSegments(pattern);
    var n := StaticPrefix(segments);
    var base := PathOf(StartDir(pattern), segments[..n]);
    if segments[n..] == [] then isFile(base) && path == base
    else Matches(base, readDir(base), segments[n..], path)
  }

  function Distinctly(paths: seq<string>): (r: seq<string>)
    ensures forall p :: p in r <==> p in paths
    ensures Distinct(r)
  {
    if paths == [] then []
    else
      var rest := Distinctly(paths[1..]);
      assert paths == [paths[0]] + paths[1..];
      if paths[0] in rest then rest else [paths[0]] + rest
  }

  lemma {:induction false} PathOfAppend(dir: string, names: seq<string>, name: string)
    ensures PathOf(dir, names + [name]) == JoinPath(PathOf(dir, names), name)
    decreases |names|
  {
    hide JoinPath;
    if names == [] {
      assert [] + [name] == [name] && [name][1..] == [];
    } else {
      assert (names + [name])[1..] == names[1..] + [name];
      PathOfAppend(JoinPath(dir, names[0]), names[1..], name);
    }
  }

  lemma {:induction false} PartsOnly(s: string, sep: char, x: char)
    requires x !in s
    ensures forall p | p in Split(s, sep) :: x !in p
  {
    if s != "" {
      PartsOnly(s[1..], sep, x);
    }
  }

  lemma {:induction false} NonEmptyAreParts(parts: seq<string>)
    ensures forall p | p in NonEmpty(parts) :: p in parts
  {
    if parts != [] {
      NonEmptyAreParts(parts[1..]);
    }
  }

  lemma NoBackslash(pattern: string)
    ensures forall s | s in PatternSegments(pattern) :: '\\' !in s
  {
    hide Split, NonEmpty;
    var normalised := Slashes(pattern);
    var root := if StartsWith(normalised, "/") then 1 else 0;
    assert '\\' !in normalised[root..];
    PartsOnly(normalised[root..], '/', '\\');
    NonEmptyAreParts(Split(normalised[root..], '/'));
  }

  lemma RemainingWalkable(pattern: string, n: nat)
    requires n < |PatternSegments(pattern)|
    ensures Walkable(PatternSegments(pattern)[n..])
  {
    hide Split, NonEmpty;
    NoBackslash(pattern);
  }

  /**
   The files a pattern stands for, in strictly ascending order; `None` is the
   SyntaxError of a segment with a descending class range.
   */
  method ExpandGlob(pattern: string, isFile: string -> bool, readDir: string -> seq<DirEntry>)
    returns (r: Option<seq<string>>)
    ensures SegmentsValid(PatternSegments(pattern)) ==> r.Some?
    ensures r.Some? ==> Ascending(r.value)
    ensures r.Some? ==> forall p :: p in r.value <==> Expands(pattern, isFile, readDir, p)
  {
    hide Matches, Tokens, JoinPath, HasMagic, SortKeys, PatternSegments, Distinctly, SegmentsValid;
    var segments := PatternSegments(pattern);
    var base := StartDir(pattern);
    var start := 0;
    assert segments[0..] == segments && segments[..0] == [];
    while start < |segments| && !HasMagic(segments[start])
      invariant 0 <= start <= |segments|
      invariant start + StaticPrefix(segments[start..]) == StaticPrefix(segments)
      invariant base == PathOf(StartDir(pattern), segments[..start])
    {
      PathOfAppend(StartDir(pattern), segments[..start], segments[start]);
      assert segments[..start] + [segments[start]] == segments[..start + 1];
      assert segments[start..][1..] == segments[start + 1..];
      base := JoinPath(base, segments[start]);
      start := start + 1;
    }
    assert StaticPrefix(segments) == start;
    var remaining := segments[start..];
    if remaining == [] {
      r := Some(if isFile(base) then [base] else []);
      return;
    }
    RemainingWalkable(pattern, start);
    if SegmentsValid(segments) { ValidSuffix(segments, start); }
    var matches := new Collector();
    var ok := Walk(base, readDir(base), remaining, matches);
    if !ok {
      return None;
    }
    var unique := Distinctly(matches.paths);
    r := Some(SortKeys(unique));
    SortKeysCorrect(unique);
    forall p ensures p in r.value <==> Expands(pattern, isFile, readDir, p) {
      assert p in r.value <==> p in Elements(r.value);
      assert p in unique <==> p in Elements(unique);
    }
  }

  lemma ValidSuffix(segments: seq<string>, n: nat)
    requires n <= |segments| && SegmentsValid(segments)
    ensures SegmentsValid(segments[n..])
  {
    hide Tokens;
    forall s | s in segments[n..] ensures s in segments { }
  }

  // ----- Patterns and paths as they are written -----

  /** Names of files and directories, or segments of a pattern. */
  predicate AreNames(parts: seq<string>) {
    forall i | 0 <= i < |parts| :: parts[i] != "" && '/' !in parts[i]
  }

  /** A pattern written with either slash, with or without one in front. */
  lemma PatternIsParts(pattern: string, parts: seq<string>, rooted: bool)
    requires parts != [] && AreNames(parts)
    requires var text := (if rooted then "/" else "") + Join(parts, '/');
      |pattern| == |text| && forall i | 0 <= i < |text| :: text[i] == if pattern[i] == '\\' then '/' else pattern[i]
    ensures StartDir(pattern) == if rooted then "/" else "."
    ensures PatternSegments(pattern) == parts + if parts[|parts| - 1] == "**" then ["*"] else []
  {
    hide Split, Join;
    var body := Join(parts, '/');
    var text := (if rooted then "/" else "") + body;
    assert Slashes(pattern) == text;
    JoinFirst(parts);
    assert text[..1] == [text[0]];
    assert text[if rooted then 1 else 0..] == body;
    SplitOfJoin(parts, '/');
    AllKept(parts);
  }

  lemma JoinFirst(parts: seq<string>)
    requires parts != [] && parts[0] != "" && '/' !in parts[0]
    ensures Join(parts, '/') != "" && Join(parts, '/')[0] != '/'
  {
    assert parts[0][0] in parts[0];
  }

  lemma {:induction false} AllKept(parts: seq<string>)
    requires AreNames(parts)
    ensures NonEmpty(parts) == parts
  {
    if parts != [] {
      AllKept(parts[1..]);
      assert parts == [parts[0]] + parts[1..];
    }
  }

  /** The path of a file: its names with slashes between them, behind the root if there is one. */
  lemma PathIsJoined(names: seq<string>)
    requires names != [] && names[0] != "." && AreNames(names)
    ensures PathOf(".", names) == Join(names, '/') && PathOf("/", names) == "/" + Join(names, '/')
  {
    hide Join, PathOf;
    var name, more := names[0], names[1..];
    FirstName(names);
    assert name[|name| - 1] in name;
    PathBehind(name, more);
    PathBehind("/" + name, more);
    JoinedFrom(names);
  }

  lemma FirstName(names: seq<string>)
    requires names != []
    ensures PathOf(".", names) == PathOf(names[0], names[1..]) && PathOf("/", names) == PathOf("/" + names[0], names[1..])
  {
  }

  lemma JoinedFrom(names: seq<string>)
    requires names != []
    ensures Join(names, '/') == if names[1..] == [] then names[0] else names[0] + "/" + Join(names[1..], '/')
  {
  }

  lemma {:induction false} PathBehind(dir: string, names: seq<string>)
    requires dir != "." && dir != "" && dir[|dir| - 1] != '/' && AreNames(names)
    ensures PathOf(dir, names) == if names == [] then dir else dir + "/" + Join(names, '/')
    decreases |names|
  {
    hide Join;
    if names != [] {
      assert names[0] != "";
      var next, last := dir + "/" + names[0], names[0][|names[0]| - 1];
      assert last in names[0];
      assert next[|next| - 1] == last;
      PathBehind(next, names[1..]);
      JoinedFrom(names);
      if names[1..] != [] {
        assert next + "/" + Join(names[1..], '/') == dir + "/" + (names[0] + "/" + Join(names[1..], '/'));
      }
    }
  }

  /** The characters that make a segment a pattern. */
  lemma MagicMeans(segment: string)
    ensures HasMagic(segment) <==> '*' in segment || '?' in segment || '[' in segment
  {
  }
}
