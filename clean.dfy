/**
  The clean pass of cmd/clean/main.go: load the latest snapshot from
  `/tmp/go_data`, drop every record that failed to download and whose name
  the deciders flag, and save once.
 */
module CleanCmd {
  import opened Wrappers
  import opened Strings
  import opened PkgData
  import opened Deciders

  /** The storage directory the pass works in. */
  const StorageDir := "/tmp/go_data"

  /**
    `clean` returns without panicking.  Its tests run in order and stop at
    the first that answers; the last one, `IncommensurateName`, indexes the
    second `@`-piece of the name, so a failed download whose name has no `@`,
    has a `/` and is not banned makes the Go code panic.
   */
  predicate CleanDefined(pkg: Package)
  {
    pkg.stats.downloadSucceeded || DomainOnly(pkg) || Banned(pkg) || '@' in pkg.name
  }

  /** `clean`: whether a record should be purged. */
  function Clean(pkg: Package): (r: bool)
    requires CleanDefined(pkg)
    ensures r ==> !pkg.stats.downloadSucceeded
    ensures !pkg.stats.downloadSucceeded && (DomainOnly(pkg) || Banned(pkg)) ==> r
  {
    if pkg.stats.downloadSucceeded then false
    else if DomainOnly(pkg) then true
    else if Banned(pkg) then true
    else IncommensurateName(pkg)
  }

  /** For a name without `@`, the pass survives it exactly when it is decided before the version test. */
  lemma CleanWithoutAt(pkg: Package)
    requires '@' !in pkg.name
    ensures CleanDefined(pkg) <==> pkg.stats.downloadSucceeded || '/' !in pkg.name || Banned(pkg)
    ensures CleanDefined(pkg) ==> (Clean(pkg) <==> !pkg.stats.downloadSucceeded)
  {
  }

  /**
    For a name built from an `@`-free module and version, `clean` purges
    exactly the failed downloads whose module is a bare host, a forge root
    with one path element, one of the `Shortened` paths, or has a major
    version of 2 or more that its path does not end in.
   */
  lemma CleanOfBuilt(mod: string, version: string, stats: Stats)
    requires '@' !in mod && '@' !in version
    ensures CleanDefined(Package(BuildPackageName(mod, version), stats))
    ensures Clean(Package(BuildPackageName(mod, version), stats)) <==>
      && !stats.downloadSucceeded
      && ( || '/' !in mod
           || ((HasPrefix(mod, "github.com") || HasPrefix(mod, "bitbucket.org")) && Occurrences(mod, '/') == 1)
           || mod in Shortened
           || ( && HasPrefix(version, "v")
                && !HasPrefix(version, "v0")
                && !HasPrefix(version, "v1")
                && !HasSuffix(version, "ible")
                && !EndsInElement(mod, Major(version))))
  {
    var pkg := Package(BuildPackageName(mod, version), stats);
    ModNameOfBuilt(mod, version, stats);
    BannedMeaning(pkg);
    IncommensurateNameMeaning(mod, version, stats);
  }

  predicate AllDefined(pkgs: seq<Package>)
  {
    forall i | 0 <= i < |pkgs| :: CleanDefined(pkgs[i])
  }

  /** The names the collecting loop appends, in the order the packages arrive. */
  function Deletions(pkgs: seq<Package>): (names: seq<string>)
    requires AllDefined(pkgs)
    ensures |names| <= |pkgs|
  {
    if |pkgs| == 0 then []
    else
      var last := pkgs[|pkgs| - 1];
      Deletions(pkgs[..|pkgs| - 1]) + (if Clean(last) then [last.name] else [])
  }

  /** A name is collected exactly when some package with that name is to be purged. */
  lemma DeletionsMembers(pkgs: seq<Package>, name: string)
    requires AllDefined(pkgs)
    ensures name in Deletions(pkgs) <==> exists i | 0 <= i < |pkgs| :: pkgs[i].name == name && Clean(pkgs[i])
  {
    if name in Deletions(pkgs) {
      var i := DeletionSource(pkgs, name);
    }
    if exists i | 0 <= i < |pkgs| :: pkgs[i].name == name && Clean(pkgs[i]) {
      var i :| 0 <= i < |pkgs| && pkgs[i].name == name && Clean(pkgs[i]);
      DeletionCollected(pkgs, i);
    }
  }

  /** A collected name comes from a package that is to be purged. */
  lemma {:induction false} DeletionSource(pkgs: seq<Package>, name: string) returns (i: nat)
    requires AllDefined(pkgs)
    requires name in Deletions(pkgs)
    ensures i < |pkgs| && pkgs[i].name == name && Clean(pkgs[i])
  {
    var init := pkgs[..|pkgs| - 1];
    if name in Deletions(init) {
      i := DeletionSource(init, name);
      assert pkgs[i] == init[i];
    } else {
      i := |pkgs| - 1;
    }
  }

  /** A package that is to be purged has its name collected. */
  lemma {:induction false} DeletionCollected(pkgs: seq<Package>, i: nat)
    requires AllDefined(pkgs)
    requires i < |pkgs| && Clean(pkgs[i])
    ensures pkgs[i].name in Deletions(pkgs)
  {
    var init := pkgs[..|pkgs| - 1];
    if i < |init| {
      assert init[i] == pkgs[i];
      DeletionCollected(init, i);
    }
  }

  predicate Distinct(names: seq<string>)
  {
    forall i, j | 0 <= i < j < |names| :: names[i] != names[j]
  }

  /** Packages with distinct names give distinct collected names. */
  lemma {:induction false} DeletionsDistinct(pkgs: seq<Package>)
    requires AllDefined(pkgs)
    requires forall i, j | 0 <= i < j < |pkgs| :: pkgs[i].name != pkgs[j].name
    ensures Distinct(Deletions(pkgs))
  {
    if |pkgs| > 0 {
      var init := pkgs[..|pkgs| - 1];
      var last := pkgs[|pkgs| - 1];
      DeletionsDistinct(init);
      forall i | 0 <= i < |init|
        ensures init[i].name != last.name
      {
        assert init[i] == pkgs[i];
      }
      DeletionsMembers(init, last.name);
    }
  }

  /** A sequence without repetitions has as many elements as its set. */
  lemma {:induction false} DistinctCard(names: seq<string>)
    requires Distinct(names)
    ensures |set n | n in names| == |names|
  {
    if |names| > 0 {
      var init := names[..|names| - 1];
      var last := names[|names| - 1];
      assert Distinct(init);
      DistinctCard(init);
      assert (set n | n in names) == (set n | n in init) + {last};
      assert last !in init;
    }
  }

  /**
    The collecting loop over the enumerated packages: the names to purge in
    arrival order, or a panic exactly when some package is not decidable.
   */
  method CollectDeletions(all: seq<Package>) returns (toDel: seq<string>, panicked: bool)
    ensures panicked <==> !AllDefined(all)
    ensures !panicked ==> toDel == Deletions(all)
  {
    toDel := [];
    var i := 0;
    while i < |all|
      invariant 0 <= i <= |all|
      invariant AllDefined(all[..i])
      invariant toDel == Deletions(all[..i])
    {
      if !CleanDefined(all[i]) {
        return toDel, true;
      }
      assert all[..i + 1][..i] == all[..i];
      if Clean(all[i]) {
        toDel := toDel + [all[i].name];
      }
      i := i + 1;
    }
    assert all[..i] == all;
    panicked := false;
  }

  /** The purging loop: every listed name is removed from the store. */
  method PurgeAll(store: Store, toDel: seq<string>)
    modifies store
    ensures store.packages == old(store.packages) - (set n | n in toDel)
    ensures store.storagePath == old(store.storagePath)
    ensures |toDel| > 0 ==> !store.clean
    ensures |toDel| == 0 ==> store.clean == old(store.clean)
  {
    var i := 0;
    while i < |toDel|
      invariant 0 <= i <= |toDel|
      invariant store.packages == old(store.packages) - (set n | n in toDel[..i])
      invariant store.storagePath == old(store.storagePath)
      invariant i > 0 ==> !store.clean
      invariant i == 0 ==> store.clean == old(store.clean)
    {
      store.PurgePackage(toDel[i]);
      ghost var before, after := toDel[..i], toDel[..i + 1];
      assert after == before + [toDel[i]];
      assert (set n | n in after) == (set n | n in before) + {toDel[i]};
      i := i + 1;
    }
    assert toDel[..i] == toDel;
  }

  /** Every record of `m` can be decided without a panic. */
  predicate MapDefined(m: map<string, Stats>)
  {
    forall k | k in m :: CleanDefined(Package(k, m[k]))
  }

  /** The names of the records of `m` that `clean` selects. */
  function Cleaned(m: map<string, Stats>): (names: set<string>)
    requires MapDefined(m)
    ensures names <= m.Keys
  {
    set k | k in m && Clean(Package(k, m[k]))
  }

  /** An enumeration of a map is decidable exactly when the map is. */
  lemma EnumeratedDefined(all: seq<Package>, m: map<string, Stats>)
    requires Enumerates(all, m)
    ensures AllDefined(all) <==> MapDefined(m)
  {
    if AllDefined(all) {
      forall k | k in m
        ensures CleanDefined(Package(k, m[k]))
      {
        var i :| 0 <= i < |all| && all[i].name == k;
        assert all[i] == Package(k, m[k]);
      }
    }
    if MapDefined(m) {
      forall i | 0 <= i < |all|
        ensures CleanDefined(all[i])
      {
        assert all[i] == Package(all[i].name, m[all[i].name]);
      }
    }
  }

  /** Collecting over an enumeration of a map yields each selected name exactly once. */
  lemma EnumeratedDeletions(all: seq<Package>, m: map<string, Stats>)
    requires Enumerates(all, m) && AllDefined(all) && MapDefined(m)
    ensures (set n | n in Deletions(all)) == Cleaned(m)
    ensures |Deletions(all)| == |Cleaned(m)|
  {
    forall name | name in Deletions(all)
      ensures name in Cleaned(m)
    {
      DeletionsMembers(all, name);
      var i :| 0 <= i < |all| && all[i].name == name && Clean(all[i]);
      assert all[i] == Package(name, m[name]);
    }
    forall name | name in Cleaned(m)
      ensures name in Deletions(all)
    {
      var i :| 0 <= i < |all| && all[i].name == name;
      assert all[i] == Package(name, m[name]);
      DeletionsMembers(all, name);
    }
    DeletionsDistinct(all);
    DistinctCard(Deletions(all));
  }

  /** How a run of the pass ends: a panic in the collecting loop, or the purge and the save. */
  datatype CleanRun = Panicked | Finished(toDel: seq<string>, saveErr: Option<Error>, file: FileWritten)

  /**
    `main`: errors from setting the path and loading are ignored, as in the
    Go code.  A finished run leaves exactly the records `clean` does not
    select, having listed each selected name once, and a save that writes
    anything writes those records.
   */
  method CleanMain(store: Store, stat: StatResult, glob: GlobResult, fs: string -> FileContents,
                   timestamp: string, outcome: WriteOutcome) returns (run: CleanRun)
    modifies store
    ensures stat == Stat(true) ==> store.storagePath == StorageDir
    ensures stat != Stat(true) ==> store.storagePath == old(store.storagePath)
    ensures run.Panicked? <==> !MapDefined(AfterLoadLatest(old(store.packages), glob, fs))
    ensures run.Panicked? ==> store.packages == AfterLoadLatest(old(store.packages), glob, fs)
    ensures run.Finished? ==>
      var loaded := AfterLoadLatest(old(store.packages), glob, fs);
      && MapDefined(loaded)
      && (set n | n in run.toDel) == Cleaned(loaded)
      && |run.toDel| == |Cleaned(loaded)|
      && store.packages == loaded - Cleaned(loaded)
    ensures run.Finished? && run.file.Complete? ==> run.file.contents == store.packages
    ensures run.Finished? && |run.toDel| > 0 && outcome == WriteOutcome(true, true, true) ==>
      run.saveErr == None && run.file == Complete(store.storagePath, SnapshotName(timestamp), store.packages)
  {
    var _ := store.SetStoragePath(StorageDir, stat);
    var _ := store.LoadLatest(glob, fs);
    ghost var loaded := store.packages;
    var all := store.AllPackages();
    EnumeratedDefined(all, loaded);
    var toDel, panicked := CollectDeletions(all);
    if panicked {
      return Panicked;
    }
    EnumeratedDeletions(all, loaded);
    PurgeAll(store, toDel);
    var err, file := store.Save(timestamp, outcome);
    run := Finished(toDel, err, file);
  }
}
