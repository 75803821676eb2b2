/**
 Lookups of `src/config.ts` that overlap: a load waits for the disk once for each
 directory it probes and once more for the file it reads, and other loads run in
 between on the same two caches.
 */
module ConfigInterleave {
  import opened Wrappers
  import opened ConfigWalk

  /** A load waits for the probe of `dir`; it knows its file; it waits for that file; it has its config. */
  datatype Lookup =
    | Probing(start: Path, dir: Path, traversed: seq<Path>)
    | Found(start: Path, found: Option<Path>)
    | Reading(start: Path, path: Path)
    | Loaded(start: Path, config: Result<Config, string>)

  type Walked = map<Path, Option<Path>>
  type Parsed = map<Path, Result<Config, string>>

  datatype State = State(cache: Walked, parsed: Parsed, lookups: seq<Lookup>)

  /** A load begins, or load `i` goes on: the disk has answered it, or `findConfig` has returned to it. */
  datatype Event = Begin(dir: Path) | Resume(i: nat)

  /** `rememberWalk`, one directory after the other. */
  function Remember(cache: Walked, dirs: seq<Path>, found: Option<Path>): Walked
    decreases |dirs|
  {
    if dirs == [] then cache else Remember(cache[dirs[0] := found], dirs[1..], found)
  }

  /** The start of a turn of the walk, up to the next wait: the cache may know the directory. */
  function Visit(cache: Walked, start: Path, dir: Path, traversed: seq<Path>): (Walked, Lookup) {
    var through := traversed + [dir];
    if dir in cache then (Remember(cache, through, cache[dir]), Found(start, cache[dir]))
    else (cache, Probing(start, dir, through))
  }

  /** The rest of the turn, when the disk has answered. */
  function Answered(disk: Disk, cache: Walked, l: Lookup): (Walked, Lookup)
    requires l.Probing?
  {
    if disk.isFile(Candidate(l.dir)) then
      (Remember(cache, l.traversed, Some(Candidate(l.dir))), Found(l.start, Some(Candidate(l.dir))))
    else if Parent(l.dir) == l.dir then (Remember(cache, l.traversed, None), Found(l.start, None))
    else Visit(cache, l.start, Parent(l.dir), l.traversed)
  }

  function Resumed(disk: Disk, s: State, l: Lookup): (Walked, Parsed, Lookup) {
    match l
    case Probing(_, _, _) => var (cache, next) := Answered(disk, s.cache, l); (cache, s.parsed, next)
    case Found(start, None) => (s.cache, s.parsed, Loaded(start, Ok(EMPTY)))
    case Found(start, Some(path)) =>
      (s.cache, s.parsed, if path in s.parsed then Loaded(start, s.parsed[path]) else Reading(start, path))
    case Reading(start, path) => (s.cache, s.parsed[path := disk.parse(path)], Loaded(start, disk.parse(path)))
    case Loaded(_, _) => (s.cache, s.parsed, l)
  }

  function Step(disk: Disk, s: State, e: Event): State {
    match e
    case Begin(dir) =>
      var (cache, l) := Visit(s.cache, dir, dir, []);
      State(cache, s.parsed, s.lookups + [l])
    case Resume(i) =>
      if i < |s.lookups| then
        var (cache, parsed, l) := Resumed(disk, s, s.lookups[i]);
        State(cache, parsed, s.lookups[i := l])
      else s
  }

  function Run(disk: Disk, events: seq<Event>): State {
    if events == [] then State(map[], map[], [])
    else Step(disk, Run(disk, events[..|events| - 1]), events[|events| - 1])
  }

  // ----- What every interleaving keeps -----

  ghost predicate CacheSound(disk: Disk, cache: Walked) {
    forall d | d in cache :: cache[d] == Nearest(disk, d)
  }

  ghost predicate ParsedSound(disk: Disk, parsed: Parsed) {
    forall p | p in parsed :: parsed[p] == disk.parse(p)
  }

  /** All directories of a walk have the same answer as the one it stands at. */
  ghost predicate WalkSound(disk: Disk, traversed: seq<Path>, dir: Path) {
    forall d | d in traversed :: Nearest(disk, d) == Nearest(disk, dir)
  }

  ghost predicate LookupSound(disk: Disk, l: Lookup) {
    match l
    case Probing(start, dir, traversed) => start in traversed && WalkSound(disk, traversed, dir)
    case Found(start, config) => config == Nearest(disk, start)
    case Reading(start, path) => Nearest(disk, start) == Some(path)
    case Loaded(start, config) => config == LoadFresh(disk, start)
  }

  ghost predicate Sound(disk: Disk, s: State) {
    CacheSound(disk, s.cache) && ParsedSound(disk, s.parsed) && forall l | l in s.lookups :: LookupSound(disk, l)
  }

  lemma {:induction false} RememberSound(disk: Disk, cache: Walked, dirs: seq<Path>, found: Option<Path>)
    requires CacheSound(disk, cache) && forall d | d in dirs :: Nearest(disk, d) == found
    ensures CacheSound(disk, Remember(cache, dirs, found))
    decreases |dirs|
  {
    hide Nearest;
    if dirs != [] {
      RememberSound(disk, cache[dirs[0] := found], dirs[1..], found);
    }
  }

  lemma VisitSound(disk: Disk, cache: Walked, start: Path, dir: Path, traversed: seq<Path>)
    requires CacheSound(disk, cache) && WalkSound(disk, traversed, dir) && (start in traversed || start == dir)
    ensures var r := Visit(cache, start, dir, traversed); CacheSound(disk, r.0) && LookupSound(disk, r.1)
  {
    hide Nearest, Remember;
    var through := traversed + [dir];
    assert WalkSound(disk, through, dir) && start in through;
    if dir in cache {
      RememberSound(disk, cache, through, cache[dir]);
    }
  }

  lemma AnsweredSound(disk: Disk, cache: Walked, l: Lookup)
    requires CacheSound(disk, cache) && l.Probing? && LookupSound(disk, l)
    ensures var r := Answered(disk, cache, l); CacheSound(disk, r.0) && LookupSound(disk, r.1)
  {
    hide Visit, Remember;
    if disk.isFile(Candidate(l.dir)) || Parent(l.dir) == l.dir {
      RememberSound(disk, cache, l.traversed, Nearest(disk, l.dir));
    } else {
      VisitSound(disk, cache, l.start, Parent(l.dir), l.traversed);
    }
  }

  lemma ResumedSound(disk: Disk, s: State, l: Lookup)
    requires CacheSound(disk, s.cache) && ParsedSound(disk, s.parsed) && LookupSound(disk, l)
    ensures var r := Resumed(disk, s, l); CacheSound(disk, r.0) && ParsedSound(disk, r.1) && LookupSound(disk, r.2)
  {
    hide Nearest, Answered, CacheSound;
    if l.Probing? {
      AnsweredSound(disk, s.cache, l);
    }
  }

  /**
   However loads overlap: every cached entry, and every file and config a load comes to, is
   what a load from its directory without any caches would give.
   */
  lemma {:induction false} OverlapsAreSound(disk: Disk, events: seq<Event>)
    ensures Sound(disk, Run(disk, events))
    decreases |events|
  {
    hide CacheSound, ParsedSound, LookupSound, Visit, Resumed;
    if events == [] {
      NothingCached(disk);
    } else {
      var s, e := Run(disk, events[..|events| - 1]), events[|events| - 1];
      OverlapsAreSound(disk, events[..|events| - 1]);
      match e {
        case Begin(dir) => FirstVisit(disk, s.cache, dir);
        case Resume(i) =>
          if i < |s.lookups| {
            ResumedSound(disk, s, s.lookups[i]);
          }
      }
    }
  }

  lemma NothingCached(disk: Disk)
    ensures CacheSound(disk, map[]) && ParsedSound(disk, map[])
  {
  }

  lemma FirstVisit(disk: Disk, cache: Walked, dir: Path)
    requires CacheSound(disk, cache)
    ensures var r := Visit(cache, dir, dir, []); CacheSound(disk, r.0) && LookupSound(disk, r.1)
  {
    hide CacheSound, LookupSound, Visit;
    VisitSound(disk, cache, dir, dir, []);
  }

  /** How many times a load may still go on. */
  function Left(l: Lookup): nat {
    match l
    case Probing(_, dir, _) => |dir| + 3
    case Found(_, _) => 2
    case Reading(_, _) => 1
    case Loaded(_, _) => 0
  }

  /** No load waits forever: it starts its depth away from the end, each step brings it nearer, and no other load sets it back. */
  lemma LookupsEnd(disk: Disk, s: State, e: Event)
    ensures var t := Step(disk, s, e);
      match e
      case Begin(dir) => |t.lookups| == |s.lookups| + 1 && t.lookups[..|s.lookups|] == s.lookups
                         && t.lookups[|s.lookups|].start == dir && Left(t.lookups[|s.lookups|]) <= |dir| + 3
      case Resume(i) =>
        && |t.lookups| == |s.lookups|
        && (forall j | 0 <= j < |s.lookups| && j != i :: t.lookups[j] == s.lookups[j])
        && (i < |s.lookups| && !s.lookups[i].Loaded? ==> Left(t.lookups[i]) < Left(s.lookups[i]))
        && (i < |s.lookups| ==> t.lookups[i].start == s.lookups[i].start)
  {
    hide Remember;
  }

  // ----- What overlapping does not keep -----

  /**
   Loads that run one after the other probe no directory and read no file twice. Two that
   overlap do both: each waits for the same probe, and then for the same file.
   */
  lemma OverlapsRepeat(disk: Disk, dir: Path)
    requires disk.isFile(Candidate(dir))
    ensures Run(disk, [Begin(dir), Begin(dir)]).lookups == [Probing(dir, dir, [dir]), Probing(dir, dir, [dir])]
    ensures Run(disk, [Begin(dir), Begin(dir), Resume(0), Resume(1), Resume(0), Resume(1)]).lookups
         == [Reading(dir, Candidate(dir)), Reading(dir, Candidate(dir))]
  {
    hide Remember;
    var a, b, c := [Begin(dir)], [Begin(dir), Begin(dir)], [Begin(dir), Begin(dir), Resume(0)];
    var d, e := c + [Resume(1)], c + [Resume(1), Resume(0)];
    assert a[..0] == [] && b[..1] == a && c[..2] == b && d[..3] == c && e[..4] == d;
    assert [] + [dir] == [dir];
    var f := [Begin(dir), Begin(dir), Resume(0), Resume(1), Resume(0), Resume(1)];
    assert f[..5] == e;
    var l := Probing(dir, dir, [dir]);
    var path := Candidate(dir);
    assert Run(disk, a).lookups == [l];
    assert Run(disk, b).lookups == [l, l];
    assert Run(disk, c).lookups == [Found(dir, Some(path)), l];
    assert Run(disk, d).lookups == [Found(dir, Some(path)), Found(dir, Some(path))];
    assert Run(disk, e).lookups == [Reading(dir, path), Found(dir, Some(path))];
  }
}
