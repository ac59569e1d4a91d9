/**
  The package-record store of pkg/pkgdata/data.go: a map from
  `module@version` names to `PackageStats` records plus the `clean` flag that
  says whether the map has changed since it was last saved or loaded.

  The package-level variables of the Go file become the fields of `Store`.
  The file system is an input: what `os.Stat` says about a directory, what a
  glob finds, what a named file decodes to, and whether creating, encoding
  and writing a snapshot succeed.  The lock is not modelled: every method
  runs to completion on its own.
 */
module PkgData {
  import opened Wrappers
  import opened Strings

  /** `PackageStats`, the seven fields recorded for one package. */
  datatype Stats = Stats(
    downloadSucceeded: bool,
    buildableTargets: int,
    allBuildsPass: bool,
    testableTargets: int,
    allTestsPassed: bool,
    failedBuilds: seq<string>,
    failedTests: seq<string>)

  /** The zero value `PackageStats{}`, which `new(PackageStats)` points at. */
  const ZeroStats := Stats(false, 0, false, 0, false, [], [])

  /** `Package`, one name with a copy of its record. */
  datatype Package = Package(name: string, stats: Stats)

  /** The errors the store reports to its callers. */
  datatype Error = StatError | NotADirectory(path: string) | OpenError | ReadError | DecodeError
                 | GlobError | WriteError

  /** What `os.Stat` reports about a path. */
  datatype StatResult = StatFailed | Stat(isDir: bool)

  /** What opening, reading and decoding a snapshot file as JSON yields. */
  datatype FileContents = OpenFailed | ReadFailed | DecodeFailed | Decoded(entries: map<string, Stats>)

  /** What `filepath.Glob` returns for the snapshot pattern. */
  datatype GlobResult = GlobFailed | Matches(names: seq<string>)

  /** Whether each step of writing a snapshot succeeds: `os.Create`, `json.Marshal`, `Write`. */
  datatype WriteOutcome = WriteOutcome(createOk: bool, marshalOk: bool, writeOk: bool)

  /** The file a `Save` leaves behind in the storage directory. */
  datatype FileWritten =
    | NoFile
    | Incomplete(dir: string, fileName: string)
    | Complete(dir: string, fileName: string, contents: map<string, Stats>)

  /** Prefix of every snapshot file name, and of the pattern `LoadLatest` globs for. */
  const SnapshotPrefix := "pkgdata-"

  /** The snapshot file name for an (already formatted) time stamp. */
  function SnapshotName(timestamp: string): (fileName: string)
    ensures HasPrefix(fileName, SnapshotPrefix)
    ensures fileName[|SnapshotPrefix|..] == timestamp
  {
    SnapshotPrefix + timestamp
  }

  /** `BuildPackageName`: the storage name of a module at a version. */
  function BuildPackageName(mod: string, version: string): string
  {
    mod + "@" + version
  }

  /** A name built from an `@`-free module and version splits back into the two. */
  lemma BuildPackageNameSplits(mod: string, version: string)
    requires '@' !in mod && '@' !in version
    ensures Split(BuildPackageName(mod, version), '@') == [mod, version]
  {
    assert Join([mod, version], '@') == BuildPackageName(mod, version);
    SplitJoin([mod, version], '@');
  }

  /** The last name of a glob result, which `LoadLatest` loads. */
  function LatestName(names: seq<string>): (latest: Option<string>)
    ensures latest.None? <==> |names| == 0
    ensures latest.Some? ==> latest.value in names
    ensures latest.Some? && (forall i, j | 0 <= i < j < |names| :: LessEq(names[i], names[j])) ==>
      forall i | 0 <= i < |names| :: LessEq(names[i], latest.value)
  {
    if |names| == 0 then None else LessEqReflexive(names[|names| - 1]); Some(names[|names| - 1])
  }

  /** The map after merging a file into `m`: unchanged unless the file decoded. */
  function AfterLoad(m: map<string, Stats>, file: FileContents): (r: map<string, Stats>)
    ensures file.Decoded? ==> r.Keys == m.Keys + file.entries.Keys
    ensures file.Decoded? ==> forall k | k in file.entries :: r[k] == file.entries[k]
    ensures forall k | k in m && (file.Decoded? ==> k !in file.entries) :: k in r && r[k] == m[k]
    ensures !file.Decoded? ==> r == m
  {
    if file.Decoded? then m + file.entries else m
  }

  /** The map after `LoadLatest`: the latest glob match merged in, if any. */
  function AfterLoadLatest(m: map<string, Stats>, glob: GlobResult, fs: string -> FileContents): map<string, Stats>
  {
    if glob.Matches? && LatestName(glob.names).Some? then AfterLoad(m, fs(LatestName(glob.names).value)) else m
  }

  /** `all` lists every entry of `m` exactly once, each with a copy of its record. */
  ghost predicate Enumerates(all: seq<Package>, m: map<string, Stats>)
  {
    && (forall i | 0 <= i < |all| :: all[i].name in m && all[i].stats == m[all[i].name])
    && (forall k | k in m :: exists i | 0 <= i < |all| :: all[i].name == k)
    && (forall i, j | 0 <= i < j < |all| :: all[i].name != all[j].name)
  }

  class Store {
    var storagePath: string
    var packages: map<string, Stats>
    var clean: bool

    /** The state `init` establishes: no packages, clean. */
    constructor ()
      ensures storagePath == "" && packages == map[] && clean
    {
      storagePath := "";
      packages := map[];
      clean := true;
    }

    /**
      `SetStoragePath`: accept `newPath` only when it names a directory; then
      remember it and mark the store clean.
     */
    method SetStoragePath(newPath: string, stat: StatResult) returns (err: Option<Error>)
      modifies this
      ensures stat.StatFailed? ==> err == Some(StatError)
      ensures stat.Stat? && !stat.isDir ==> err == Some(NotADirectory(newPath))
      ensures err.Some? ==> storagePath == old(storagePath) && clean == old(clean)
      ensures stat == Stat(true) <==> err.None?
      ensures err.None? ==> storagePath == newPath && clean
      ensures packages == old(packages)
    {
      if stat.StatFailed? {
        return Some(StatError);
      }
      if !stat.isDir {
        return Some(NotADirectory(newPath));
      }
      storagePath := newPath;
      clean := true;
      err := None;
    }

    /**
      `Save`: nothing to do when clean.  Otherwise a snapshot named after
      `timestamp` is created in the storage directory and the whole map is
      written to it.  A failed create or encode is swallowed (no error) and a
      failed write is reported; in all three cases the store stays dirty, so
      a later `Save` tries again.  Only a complete write marks it clean.
     */
    method Save(timestamp: string, outcome: WriteOutcome) returns (err: Option<Error>, file: FileWritten)
      modifies this`clean
      ensures old(clean) ==> err == None && file == NoFile && clean
      ensures !old(clean) && !outcome.createOk ==> err == None && file == NoFile && !clean
      ensures !old(clean) && outcome.createOk && !outcome.marshalOk ==>
        err == None && file == Incomplete(storagePath, SnapshotName(timestamp)) && !clean
      ensures !old(clean) && outcome.createOk && outcome.marshalOk && !outcome.writeOk ==>
        err == Some(WriteError) && file == Incomplete(storagePath, SnapshotName(timestamp)) && !clean
      ensures !old(clean) && outcome == WriteOutcome(true, true, true) ==>
        err == None && file == Complete(storagePath, SnapshotName(timestamp), packages) && clean
    {
      if clean {
        return None, NoFile;
      }
      var name := SnapshotName(timestamp);
      if !outcome.createOk {
        return None, NoFile;
      }
      if !outcome.marshalOk {
        return None, Incomplete(storagePath, name);
      }
      if !outcome.writeOk {
        return Some(WriteError), Incomplete(storagePath, name);
      }
      clean := true;
      err, file := None, Complete(storagePath, name, packages);
    }

    /**
      `Load`: read the file `name` through `fs`.  An open, read or decode
      failure is reported before the store is touched; otherwise every
      decoded entry goes through `EnsurePackage` and `SetPackageData`, and the
      store ends clean.
     */
    method Load(name: string, fs: string -> FileContents) returns (err: Option<Error>)
      modifies this
      ensures fs(name) == OpenFailed ==> err == Some(OpenError)
      ensures fs(name) == ReadFailed ==> err == Some(ReadError)
      ensures fs(name) == DecodeFailed ==> err == Some(DecodeError)
      ensures err.None? <==> fs(name).Decoded?
      ensures err.Some? ==> packages == old(packages) && clean == old(clean)
      ensures err.None? ==> packages == old(packages) + fs(name).entries && clean
      ensures packages == AfterLoad(old(packages), fs(name))
      ensures storagePath == old(storagePath)
    {
      var contents := fs(name);
      match contents
      case OpenFailed => return Some(OpenError);
      case ReadFailed => return Some(ReadError);
      case DecodeFailed => return Some(DecodeError);
      case Decoded(entries) =>
        var remaining := entries.Keys;
        ghost var done: set<string> := {};
        while remaining != {}
          invariant remaining + done == entries.Keys && remaining !! done
          invariant packages == old(packages) + Restrict(entries, done)
          invariant storagePath == old(storagePath)
          decreases remaining
        {
          var key :| key in remaining;
          var _ := EnsurePackage(key);
          SetPackageData(key, entries[key]);
          RestrictGrow(old(packages), entries, done, key);
          done := done + {key};
          remaining := remaining - {key};
        }
        assert Restrict(entries, done) == entries;
        clean := true;
        return None;
    }

    /**
      `LoadLatest`: load the last name the glob found.  No match means
      nothing to load, which is not an error.
     */
    method LoadLatest(glob: GlobResult, fs: string -> FileContents) returns (err: Option<Error>)
      modifies this
      ensures glob.GlobFailed? ==> err == Some(GlobError) && packages == old(packages) && clean == old(clean)
      ensures glob == Matches([]) ==> err == None && packages == old(packages) && clean == old(clean)
      ensures glob.Matches? && LatestName(glob.names).Some? ==>
        var latest := LatestName(glob.names).value;
        && (err.None? <==> fs(latest).Decoded?)
        && (fs(latest) == OpenFailed ==> err == Some(OpenError))
        && (fs(latest) == ReadFailed ==> err == Some(ReadError))
        && (fs(latest) == DecodeFailed ==> err == Some(DecodeError))
        && (err.None? ==> clean)
        && (err.Some? ==> clean == old(clean))
      ensures packages == AfterLoadLatest(old(packages), glob, fs)
      ensures storagePath == old(storagePath)
    {
      if glob.GlobFailed? {
        return Some(GlobError);
      }
      if |glob.names| == 0 {
        return None;
      }
      err := Load(LatestName(glob.names).value, fs);
    }

    /** `PackageSeen`: whether the store has a record for `name`. */
    method PackageSeen(name: string) returns (seen: bool)
      ensures seen <==> name in packages
    {
      seen := name in packages;
    }

    /** `GetPackageData`: a copy of the record and true, or the zero record and false. */
    method GetPackageData(name: string) returns (stats: Stats, found: bool)
      ensures found <==> name in packages
      ensures found ==> stats == packages[name]
      ensures !found ==> stats == ZeroStats
    {
      if name in packages {
        return packages[name], true;
      }
      return ZeroStats, false;
    }

    /**
      `EnsurePackage`: claim `name`.  An absent name gets the zero record,
      the store turns dirty and the answer is false; a present name changes
      nothing and the answer is true.
     */
    method EnsurePackage(name: string) returns (existed: bool)
      modifies this
      ensures existed <==> name in old(packages)
      ensures existed ==> packages == old(packages) && clean == old(clean)
      ensures !existed ==> packages == old(packages)[name := ZeroStats] && !clean
      ensures name in packages
      ensures storagePath == old(storagePath)
    {
      if name !in packages {
        packages := packages[name := ZeroStats];
        clean := false;
        return false;
      }
      return true;
    }

    /**
      `SetPackageData`: overwrite all seven fields of the record for `name`
      and mark the store dirty, even when nothing changes.  The Go code only
      writes through a pointer it looked up first, so `name` must already be
      present: for an absent name it dereferences nil.
     */
    method SetPackageData(name: string, data: Stats)
      requires name in packages
      modifies this
      ensures packages == old(packages)[name := data]
      ensures !clean
      ensures storagePath == old(storagePath)
    {
      clean := false;
      packages := packages[name := data];
    }

    /**
      `AllPackages`: every name with a copy of its record, each once, in the
      unspecified order of Go's map iteration.
     */
    method AllPackages() returns (all: seq<Package>)
      ensures Enumerates(all, packages)
      ensures |all| == |packages|
    {
      all := [];
      var remaining := packages.Keys;
      while remaining != {}
        invariant remaining <= packages.Keys
        invariant forall i | 0 <= i < |all| :: all[i].name in packages.Keys - remaining
        invariant forall i | 0 <= i < |all| :: all[i].stats == packages[all[i].name]
        invariant forall k | k in packages.Keys - remaining :: exists i | 0 <= i < |all| :: all[i].name == k
        invariant forall i, j | 0 <= i < j < |all| :: all[i].name != all[j].name
        invariant |all| + |remaining| == |packages.Keys|
        decreases remaining
      {
        var key :| key in remaining;
        ghost var prev, prevRemaining := all, remaining;
        all := all + [Package(key, packages[key])];
        remaining := remaining - {key};
        forall k | k in packages.Keys - remaining
          ensures exists i | 0 <= i < |all| :: all[i].name == k
        {
          if k == key {
            assert all[|all| - 1].name == k;
          } else {
            assert k in packages.Keys - prevRemaining;
            var i :| 0 <= i < |prev| && prev[i].name == k;
            assert all[i].name == k;
          }
        }
      }
      assert packages.Keys - remaining == packages.Keys;
    }

  /**
      `PurgePackage` is called by the clean pass but is not defined in
      pkg/pkgdata/data.go.  Its contract is what the clean pass needs of
      it, stated as an assumption: the record goes away and the store
      turns dirty, whether or not the name was present.
     */
    method PurgePackage(name: string)
      modifies this
      ensures packages == old(packages) - {name}
      ensures !clean
      ensures storagePath == old(storagePath)
    {
      packages := packages - {name};
      clean := false;
    }
  }

  /** The entries of `m` whose keys are in `keys`. */
  function Restrict(m: map<string, Stats>, keys: set<string>): (r: map<string, Stats>)
    ensures r.Keys == m.Keys * keys
    ensures forall k | k in r :: r[k] == m[k]
  {
    map k | k in m && k in keys :: m[k]
  }

  lemma RestrictGrow(base: map<string, Stats>, m: map<string, Stats>, keys: set<string>, key: string)
    requires key in m
    ensures (base + Restrict(m, keys))[key := m[key]] == base + Restrict(m, keys + {key})
  {
  }

  /** A successful `Save` followed by a `Load` of its file into a fresh store reproduces the map. */
  method SaveLoadRoundTrip(store: Store, timestamp: string) returns (copy: Store)
    requires !store.clean
    modifies store
    ensures fresh(copy)
    ensures copy.packages == store.packages && copy.clean
  {
    var saved := store.packages;
    var err, file := store.Save(timestamp, WriteOutcome(true, true, true));
    copy := new Store();
    var name := SnapshotName(timestamp);
    var fs := (n: string) => if n == name then Decoded(file.contents) else OpenFailed;
    var loadErr := copy.Load(name, fs);
    assert map[] + saved == saved;
  }

  /** A second `Save` with no change in between writes nothing. */
  method SaveTwiceWritesOnce(store: Store, t1: string, t2: string, second: WriteOutcome)
    returns (file1: FileWritten, file2: FileWritten)
    requires !store.clean
    modifies store
    ensures file1.Complete? && file2 == NoFile
  {
    var err1, err2;
    err1, file1 := store.Save(t1, WriteOutcome(true, true, true));
    err2, file2 := store.Save(t2, second);
  }

  /** Claiming a name twice: the first claim reports it new, the second reports it seen. */
  method ClaimTwice(store: Store, name: string) returns (first: bool, second: bool, seen: bool)
    modifies store
    ensures first <==> name in old(store.packages)
    ensures second && seen
    ensures store.packages == old(store.packages)[name := if first then old(store.packages)[name] else ZeroStats]
  {
    first := store.EnsurePackage(name);
    second := store.EnsurePackage(name);
    seen := store.PackageSeen(name);
  }
}
