/**
 The config lookup of `src/config.ts` with its two module-level caches. A directory is
 the list of its path segments below the root; the file system does not change.
 */
module ConfigWalk {
  import opened Wrappers

  type Path = seq<string>

  const CONFIG_FILENAME := ".stellartomlrc.json"

  datatype Config = Config(rules: map<string, string>, strict: bool, maxWarnings: Option<nat>)

  const EMPTY := Config(map[], false, None)

  /** What the code asks of the disk: whether a path is a file, and what reading it as a config gives. */
  datatype Disk = Disk(isFile: Path -> bool, parse: Path -> Result<Config, string>)

  /** `join(dir, CONFIG_FILENAME)`. */
  function Candidate(dir: Path): Path {
    dir + [CONFIG_FILENAME]
  }

  /** `dirname`, which maps the root to itself. */
  function Parent(dir: Path): Path {
    if dir == [] then [] else dir[..|dir| - 1]
  }

  /** The walk without a cache. */
  function Nearest(disk: Disk, dir: Path): Option<Path>
    decreases |dir|
  {
    if disk.isFile(Candidate(dir)) then Some(Candidate(dir))
    else if Parent(dir) == dir then None
    else Nearest(disk, Parent(dir))
  }

  /** The config file found is that of the deepest directory on the way up that has one. */
  lemma {:induction false} NearestIsDeepest(disk: Disk, dir: Path)
    ensures Nearest(disk, dir).None? <==> forall k | 0 <= k <= |dir| :: !disk.isFile(dir[..k] + [".stellartomlrc.json"])
    ensures forall k | 0 <= k <= |dir| ::
      Nearest(disk, dir) == Some(dir[..k] + [".stellartomlrc.json"]) <==>
      && disk.isFile(dir[..k] + [".stellartomlrc.json"])
      && forall j | k < j <= |dir| :: !disk.isFile(dir[..j] + [".stellartomlrc.json"])
    decreases |dir|
  {
    assert dir[..|dir|] == dir;
    var up := Parent(dir);
    if disk.isFile(Candidate(dir)) {
      forall k | 0 <= k < |dir| ensures Candidate(dir[..k]) != Candidate(dir) {
        assert |Candidate(dir[..k])| == k + 1;
      }
    } else if up != dir {
      NearestIsDeepest(disk, up);
      assert forall k | 0 <= k <= |up| :: up[..k] == dir[..k];
      if Nearest(disk, up).Some? {
        NearestLength(disk, up);
      }
    }
  }

  lemma {:induction false} NearestLength(disk: Disk, dir: Path)
    ensures Nearest(disk, dir).Some? ==> |Nearest(disk, dir).value| <= |dir| + 1
    decreases |dir|
  {
    if !disk.isFile(Candidate(dir)) && dir != [] {
      NearestLength(disk, Parent(dir));
    }
  }

  /** What a load without caches gives. */
  function LoadFresh(disk: Disk, dir: Path): Result<Config, string> {
    match Nearest(disk, dir)
    case None => Ok(EMPTY)
    case Some(path) => disk.parse(path)
  }

  /**
   A load without caches: no rules, not strict and no limit where no directory on the way up has
   a config, and else what the deepest one holds.
   */
  lemma FreshMeans(disk: Disk, dir: Path)
    ensures (forall k | 0 <= k <= |dir| :: !disk.isFile(dir[..k] + [".stellartomlrc.json"])) ==>
      LoadFresh(disk, dir) == Ok(Config(map[], false, None))
    ensures forall k | 0 <= k <= |dir| && disk.isFile(dir[..k] + [".stellartomlrc.json"])
      && (forall j | k < j <= |dir| :: !disk.isFile(dir[..j] + [".stellartomlrc.json"])) ::
      LoadFresh(disk, dir) == disk.parse(dir[..k] + [".stellartomlrc.json"])
  {
    hide Nearest;
    NearestIsDeepest(disk, dir);
  }

  ghost predicate Distinct(log: seq<Path>) {
    forall i, j | 0 <= i < j < |log| :: log[i] != log[j]
  }

  lemma DistinctNext(log: seq<Path>, x: Path)
    requires Distinct(log) && x !in log
    ensures Distinct(log + [x])
  {
  }

  lemma NearestStep(disk: Disk, dir: Path)
    ensures disk.isFile(Candidate(dir)) ==> Nearest(disk, dir) == Some(Candidate(dir))
    ensures !disk.isFile(Candidate(dir)) && Parent(dir) == dir ==> Nearest(disk, dir) == None
    ensures !disk.isFile(Candidate(dir)) && Parent(dir) != dir ==>
      Nearest(disk, dir) == Nearest(disk, Parent(dir)) && |Parent(dir)| < |dir|
  {
  }

  class ConfigCache {
    const disk: Disk
    var walkCache: map<Path, Option<Path>>
    var parseCache: map<Path, Result<Config, string>>
    /** The directories that were probed on disk, and the files that were read. */
    ghost var probed: seq<Path>
    ghost var read: seq<Path>

    /** The caches agree with the disk, and hold everything that was ever asked of it. */
    ghost predicate Valid()
      reads this
    {
      && (forall d | d in walkCache :: walkCache[d] == Nearest(disk, d))
      && (forall p | p in parseCache :: parseCache[p] == disk.parse(p))
      && (forall d | d in probed :: d in walkCache)
      && (forall p | p in read :: p in parseCache)
      && Distinct(probed) && Distinct(read)
    }

    constructor (disk: Disk)
      ensures Valid() && this.disk == disk && walkCache == map[] && parseCache == map[]
    {
      this.disk := disk;
      walkCache, parseCache, probed, read := map[], map[], [], [];
    }

    method RememberWalk(dirs: seq<Path>, found: Option<Path>)
      modifies this`walkCache
      ensures walkCache.Keys == old(walkCache).Keys + set d | d in dirs
      ensures forall d | d in walkCache :: walkCache[d] == if d in dirs then found else old(walkCache)[d]
    {
      for i := 0 to |dirs|
        invariant walkCache.Keys == old(walkCache).Keys + set d | d in dirs[..i]
        invariant forall d | d in walkCache :: walkCache[d] == if d in dirs[..i] then found else old(walkCache)[d]
      {
        walkCache := walkCache[dirs[i] := found];
        assert dirs[..i + 1] == dirs[..i] + [dirs[i]];
      }
      assert dirs[..|dirs|] == dirs;
    }

    /** Finds what a fresh walk up from the directory would find; called one at a time it probes no directory twice. */
    method FindConfig(startDir: Path) returns (found: Option<Path>)
      requires Valid()
      modifies this`walkCache, this`probed
      ensures Valid() && found == Nearest(disk, startDir)
      ensures startDir in walkCache && old(walkCache).Keys <= walkCache.Keys
    {
      hide Nearest, Distinct, Candidate, Parent;
      var traversed: seq<Path> := [];
      var dir := startDir;
      while true
        invariant startDir in traversed || dir == startDir
        invariant forall d | d in traversed :: Nearest(disk, d) == Nearest(disk, dir) && |d| > |dir|
        invariant Nearest(disk, startDir) == Nearest(disk, dir)
        invariant forall d | d in probed :: d in walkCache || d in traversed
        invariant Distinct(probed) && walkCache == old(walkCache)
        decreases |dir|
      {
        assert dir !in traversed;
        traversed := traversed + [dir];
        if dir in walkCache {
          found := walkCache[dir];
          Settle(traversed, found);
          return;
        }
        DistinctNext(probed, dir);
        NearestStep(disk, dir);
        probed := probed + [dir];
        if disk.isFile(Candidate(dir)) {
          found := Some(Candidate(dir));
          Settle(traversed, found);
          return;
        }
        var parent := Parent(dir);
        if parent == dir {
          found := None;
          Settle(traversed, found);
          return;
        }
        dir := parent;
      }
    }

    /** The end of a walk: every directory it passed through gets the answer. */
    method Settle(traversed: seq<Path>, found: Option<Path>)
      requires forall d | d in traversed :: Nearest(disk, d) == found
      requires forall d | d in walkCache :: walkCache[d] == Nearest(disk, d)
      requires forall d | d in probed :: d in walkCache || d in traversed
      requires (forall p | p in parseCache :: parseCache[p] == disk.parse(p)) && (forall p | p in read :: p in parseCache)
      requires Distinct(probed) && Distinct(read)
      modifies this`walkCache
      ensures Valid() && old(walkCache).Keys <= walkCache.Keys && forall d | d in traversed :: d in walkCache
    {
      hide Nearest, Distinct;
      RememberWalk(traversed, found);
    }

    /** Loads what a load without caches would load, or fails with the same error; called one at a time it reads no file twice. */
    method LoadConfig(startDir: Path) returns (config: Result<Config, string>)
      requires Valid()
      modifies this
      ensures Valid() && config == LoadFresh(disk, startDir)
    {
      var path := FindConfig(startDir);
      if path.None? {
        return Ok(EMPTY);
      }
      if path.value !in parseCache {
        ghost var before := read;
        read := read + [path.value];
        assert path.value !in before;
        parseCache := parseCache[path.value := disk.parse(path.value)];
      }
      config := parseCache[path.value];
    }
  }

  /** Over any sequence of lookups each one gets what it would get on its own. */
  method LoadAll(disk: Disk, dirs: seq<Path>) returns (configs: seq<Result<Config, string>>)
    ensures |configs| == |dirs| && forall i | 0 <= i < |dirs| :: configs[i] == LoadFresh(disk, dirs[i])
  {
    var cache := new ConfigCache(disk);
    configs := [];
    for i := 0 to |dirs|
      invariant cache.Valid() && cache.disk == disk && fresh(cache)
      invariant |configs| == i && forall j | 0 <= j < i :: configs[j] == LoadFresh(disk, dirs[j])
    {
      var config := cache.LoadConfig(dirs[i]);
      configs := configs + [config];
    }
  }
}
