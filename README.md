# gochecker, modelled in Dafny

gochecker surveys the Go module ecosystem in four parts:

- a server keeps a store of records, keyed by `module@version`;
- a Python wrapper inside a container downloads one module version, then builds, vets, gofmt-checks and tests its targets, and reports one record;
- offline commands clean the store and tabulate it;
- a script generator writes shell scripts that rerun the wrapper for failed records.

This project models the logic of those parts and proves what each of them promises.

- **`PkgData`** (pkg/pkgdata/data.go). The `Store` class holds the record map, the `clean` flag and the storage path. It has methods for claiming a name (`EnsurePackage`), overwriting a record (`SetPackageData`), reading (`PackageSeen`, `GetPackageData`), enumerating (`AllPackages`), saving and loading snapshots, and choosing the latest snapshot. The file system is an input: a stat result, a glob result, what each file decodes to, and the outcome of each write step.
- **`Deciders`** (pkg/deciders/deciders.go). The string heuristics `modName`, `DomainOnly`, `Banned` and `IncommensurateName` are functions. Lemmas state their meaning over names built as `module@version`, and lemmas cover every case of the Go tests. `Strings` models the parts of Go's `strings` package that they use.
- **`CleanCmd`** (cmd/clean/main.go). `clean` is a function. The pass is a method: collect the names to delete, purge them, save once.
- **`Tabulate`** (cmd/tabulate/main.go). It covers:
  - the `nMost` buffer as a class over an array that `observe` fills and then sorts in place, using the sort in `Sorting`;
  - `mostFrequentModules`;
  - the per-module version counts of `statsRun`;
  - `percentiles`, which sorts a copy and reads it at fixed indices.
- **`Wrapper`** (python/wrapper.py). It covers:
  - `pkg_and_version`, `go_escape` and `pkg_cwd`;
  - how `download` classifies the outcome of `go get`;
  - `go_fmt_check`, a loop that exits early;
  - the aggregation loop of `test_and_build`.

  Every external tool is an oracle parameter of the model.
- **`GenRescan`** (python/gen_rescan.py). `rescan` and `rebuild` work over the sorted snapshot names. A run is the sequence of lines printed, plus the exception that ends it early, if any. `main` dispatches on the sub-command.

Go panics and Python exceptions are modelled in one of two ways:

- as preconditions, where the panic is left out. Only one such case reaches the model's boundary: `SetPackageData` on an absent name dereferences nil, and a caller outside the model can make that call (see "## Left out");
- as explicit outcomes where a real input reaches them:
  - the clean pass panics on a failed download whose name has a `/` but no `@` and is not banned;
  - `percentiles` panics on an empty sample;
  - `pkg_cwd` raises `NameError`;
  - `gen_rescan` raises on a name that does not split in two at `@`.

## Model

| member | source | states |
|---|---|---|
| PkgData.BuildPackageNameSplits | pkg/pkgdata/data.go:49-51 | a name built from an `@`-free module and version splits back at `@` into exactly that module and version |
| PkgData.SnapshotName | pkg/pkgdata/data.go:81 | a snapshot file name is `pkgdata-` followed by the time stamp |
| PkgData.LatestName | pkg/pkgdata/data.go:164-169 | `LoadLatest` picks nothing for an empty glob result, otherwise the last name; it is a listed name, and for a sorted list it is the greatest |
| PkgData.AfterLoad | pkg/pkgdata/data.go:106-146 | merging a decoded file adds or overwrites exactly its keys with its records, keeps every other record, and changes nothing if the file did not decode |
| PkgData.Store.constructor | pkg/pkgdata/data.go:43-46 | a new store has no records and is clean |
| PkgData.Store.SetStoragePath | pkg/pkgdata/data.go:55-69 | a failed stat or a non-directory is an error that changes nothing; a directory becomes the path and marks the store clean; records are untouched |
| PkgData.Store.Save | pkg/pkgdata/data.go:73-103 | a clean store writes nothing and returns no error; a failed create or encode returns no error but stays dirty; a failed write is an error and stays dirty; a complete write holds the whole map and marks the store clean; records are never changed |
| PkgData.Store.Load | pkg/pkgdata/data.go:106-146 | an open, read or decode failure is the matching error and touches nothing; otherwise the map becomes the old map overridden by the decoded entries, and the store is clean |
| PkgData.Store.LoadLatest | pkg/pkgdata/data.go:149-176 | a glob failure is an error; no match is not an error and changes nothing; otherwise the name `LatestName` picks is loaded: no error exactly when it decodes, and an open, read or decode failure gives the matching error |
| PkgData.Store.PackageSeen | pkg/pkgdata/data.go:179-185 | true exactly when the store has a record for the name |
| PkgData.Store.GetPackageData | pkg/pkgdata/data.go:188-198 | the stored record and true when present, the zero record and false when absent |
| PkgData.Store.EnsurePackage | pkg/pkgdata/data.go:203-215 | an absent name gets the zero record, marks the store dirty and answers false; a present name changes nothing and answers true; afterwards the name is present |
| PkgData.Store.SetPackageData | pkg/pkgdata/data.go:220-237 | for a present name, the record becomes exactly the given seven fields, other records are untouched, and the store turns dirty even when nothing changed |
| PkgData.Store.AllPackages | pkg/pkgdata/data.go:243-254 | every name is listed exactly once, each with a copy of its record, and nothing else is listed |
| PkgData.Store.PurgePackage | cmd/clean/main.go:55-57 | assumed contract: the name's record goes away and the store turns dirty |
| PkgData.SaveLoadRoundTrip | pkg/pkgdata/data.go:73-146 | loading the file a complete `Save` wrote, into a fresh store, reproduces the saved map and leaves the store clean |
| PkgData.SaveTwiceWritesOnce | pkg/pkgdata/data.go:76-79 | a second `Save` with no change in between writes nothing |
| PkgData.ClaimTwice | pkg/pkgdata/data.go:179-215 | claiming a name twice: the first claim says whether it was present, the second always says present, and the name is then seen |
| Strings.IndexOf | pkg/deciders/deciders.go:17 | `strings.Index` for one character: -1 exactly when the character is absent, otherwise the position of its first occurrence |
| Strings.Split | pkg/deciders/deciders.go:28 | `strings.Split` for one character: at least one piece, at least two when the separator occurs, no piece contains it |
| Strings.JoinSplit | pkg/deciders/deciders.go:28 | joining the pieces of a split with the separator gives back the input, so splitting loses nothing |
| Strings.SplitCount | pkg/deciders/deciders.go:65 | a split has one piece more than the separator has occurrences |
| Deciders.ModName | pkg/deciders/deciders.go:16-23 | the text before the first `@`, or the whole name when it has none; never contains `@` |
| Deciders.ModNameOfBuilt | pkg/deciders/deciders.go:16-23 | for a name built from an `@`-free module, the module part is that module |
| Deciders.DomainOnly | pkg/deciders/deciders.go:56-58 | true exactly when the module part contains no `/` |
| Deciders.ListedIn | pkg/deciders/deciders.go:76-80 | the loop over `shortened` is exact membership, not a prefix test |
| Deciders.BannedMeaning | pkg/deciders/deciders.go:61-83 | banned exactly when the module part starts with `github.com` or `bitbucket.org` and has exactly one `/`, or equals one of the four `shortened` paths |
| Deciders.LastComponentIs | pkg/deciders/deciders.go:47-48 | the last `/`-piece of a path is `vn` exactly when `vn` has no `/` and the path is `vn` or ends in `/` then `vn` |
| Deciders.MajorOf | pkg/deciders/deciders.go:45-46 | the text of a version before its first `.` is its `.`-free prefix |
| Deciders.IncommensurateNameMeaning | pkg/deciders/deciders.go:27-53 | for a built name, flagged exactly when the version starts with `v` but not with `v0` or `v1`, does not end in `ible`, and its major token is not the module path's last element |
| Deciders.DomainOnlyBareHost | pkg/deciders/deciders_test.go:18 | `github.com@foo` is domain only |
| Deciders.DomainOnlyWithPath | pkg/deciders/deciders_test.go:18 | `github.com/foo@foo` is not domain only |
| Deciders.MajorTwo | pkg/deciders/deciders_test.go:34-36 | `v2.0.0` passes the prefix and suffix tests and has major token `v2` |
| Deciders.IncommensurateOtherMajorPath | pkg/deciders/deciders_test.go:34-36 | `example.com/code/v1@v2.0.0` and `example.com/code/v3@v2.0.0` are flagged |
| Deciders.IncommensurateMatchingPath | pkg/deciders/deciders_test.go:35 | `example.com/code/v2@v2.0.0` is not flagged |
| Deciders.IncommensurateUnversionedPath | pkg/deciders/deciders_test.go:39 | `example.com/code@v2.0.0` is flagged |
| Deciders.IncommensurateLowMajor | pkg/deciders/deciders_test.go:37-38 | `example.com/code@v0.0.0` and `example.com/code@v1.0.0` are not flagged |
| Deciders.IncommensurateIncompatible | pkg/deciders/deciders_test.go:40 | `example.com/code@v2.0.0+incompatible` is not flagged |
| CleanCmd.Clean | cmd/clean/main.go:14-41 | a purged record is a failed download; a failed download that is domain only or banned is purged; defined wherever the Go code does not panic |
| CleanCmd.CleanWithoutAt | cmd/clean/main.go:14-41 | for a name without `@`, the Go code avoids a panic exactly when the download succeeded, the name has no `/`, or it is banned; in those cases such a record is purged exactly when its download failed |
| CleanCmd.CleanOfBuilt | cmd/clean/main.go:14-41 | for a built name, never a panic, and purged exactly when the download failed and the name is domain only, banned, or incommensurate |
| CleanCmd.Deletions | cmd/clean/main.go:49-53 | the collected names, in arrival order, are at most as many as the packages |
| CleanCmd.DeletionsMembers | cmd/clean/main.go:49-53 | a name is collected exactly when some package with that name is to be purged |
| CleanCmd.DeletionsDistinct | cmd/clean/main.go:49-53 | packages with distinct names yield distinct collected names |
| CleanCmd.CollectDeletions | cmd/clean/main.go:49-53 | the loop panics exactly when some package cannot be decided; otherwise it returns the collected names |
| CleanCmd.PurgeAll | cmd/clean/main.go:55-57 | every listed name is removed, nothing else, and the store turns dirty when anything was listed |
| CleanCmd.Cleaned | cmd/clean/main.go:49-53 | the names selected from a map are some of its keys |
| CleanCmd.EnumeratedDefined | cmd/clean/main.go:49-53 | an enumeration of the store can be decided exactly when every record of the store can |
| CleanCmd.EnumeratedDeletions | cmd/clean/main.go:49-53 | collecting over an enumeration yields each selected name of the map exactly once |
| CleanCmd.CleanMain | cmd/clean/main.go:43-69 | the pass sets the path to `/tmp/go_data` when it is a directory, and loads the latest snapshot; it panics exactly when some loaded record cannot be decided; otherwise it removes exactly the selected records, listing each once; any save that writes a complete snapshot holds the remaining records, and after a purge a save that succeeds at every step writes one |
| Tabulate.ModuleFromPackageIsModName | cmd/tabulate/main.go:49-51 | `moduleFromPackage` is the text before the first `@`, or all of it, the same as `modName` |
| Tabulate.ModuleFromBuiltName | cmd/tabulate/main.go:49-51 | it recovers the module from a built name |
| Sorting.Swap | cmd/tabulate/main.go:61-63 | exchanges any two in-range slots, equal ones included, leaves every other slot alone and keeps the multiset of elements |
| Sorting.SortByKey | cmd/tabulate/main.go:57-73 | after `sort.Sort`, the buffer is ordered by the key and is a permutation of what it was |
| Tabulate.MostN.constructor | cmd/tabulate/main.go:76-83 | `newMostN(n)` has `max = n`, `seen = 0`, `n + 1` slots and has observed nothing |
| Tabulate.MostN.Observe | cmd/tabulate/main.go:65-74 | while there is room, the entry goes into slot `seen` and nothing else moves; once full, the spare slot is overwritten and the buffer is sorted by descending count, keeping its entries; the buffer invariant holds throughout |
| Tabulate.TopStep | cmd/tabulate/main.go:65-74 | after an overflow step, the first `max` slots hold counts no smaller than any entry ever dropped |
| Tabulate.TopOfObserved | cmd/tabulate/main.go:65-74 | after more than `max` observations, the first `max` slots are observed entries and no observed entry outside them has a larger count |
| Tabulate.MostFrequentModules | cmd/tabulate/main.go:242-250 | exactly `n` entries; with at most `n` modules, every module with its count plus zero padding; with more, `n` distinct modules with their counts, in descending order, none beaten by a module left out |
| Tabulate.OutcomesPartition | cmd/tabulate/main.go:207-215 | every package is counted under exactly one download outcome |
| Tabulate.VersionCounts | cmd/tabulate/main.go:200-216 | each module's count in each map is the number of packages of that module with that outcome, and the totals of the two maps sum to the number of packages |
| Tabulate.StatsRun | cmd/tabulate/main.go:200-216 | over the store, each map counts exactly the store's keys of that module and outcome, holds exactly the modules with such keys, and the two totals sum to the number of records |
| Tabulate.SortedCopySorted | cmd/tabulate/main.go:228-230 | the sorted copy is ordered; by the contract of `SortedCopy` it has the samples' length and is a permutation of them |
| Tabulate.SortedUnique | cmd/tabulate/main.go:230 | there is only one sorted arrangement of a collection of samples, so the unstable sort's result is determined |
| Tabulate.PercentileIndex | cmd/tabulate/main.go:232-237 | for at least one sample, every percentile index is below the count, and larger percentiles give larger indices |
| Tabulate.CopyOf | cmd/tabulate/main.go:228-229 | the copy is a new buffer with the same contents |
| Tabulate.Percentiles | cmd/tabulate/main.go:225-238 | no samples is the index panic; otherwise the six results are `Summarize` of the sorted copy of the samples: the reads at the median, the 75th, 90th, 95th and 99th percentile index and the last index; they are in non-decreasing order; the maximum is a sample no smaller than any sample; the input is not modified |
| Tabulate.SummaryOfSamples | cmd/tabulate/main.go:230-238 | read from the sorted copy of at least one sample, the six values are in non-decreasing order and the last is a sample no smaller than any other |
| Wrapper.PkgAndVersionIsKey | python/wrapper.py:64-65 | the designator `pkg@version` is the store's key for the module and version, and splits back into them |
| Wrapper.GoEscape | python/wrapper.py:68-71 | an upper-case letter becomes `!` and its lower-case form; any other character is kept |
| Wrapper.EscapeRoundTrip | python/wrapper.py:68-71 | for text without `!`, unescaping the escaped text gives it back |
| Wrapper.EscapeHasNoUpper | python/wrapper.py:68-71 | escaped text has no upper-case letters |
| Wrapper.PathJoin | python/wrapper.py:93 | `os.path.join` keeps an absolute second part; otherwise it appends the second part to the first, adding a `/` only when the first is non-empty and does not already end in one; the result always ends with the second part |
| Wrapper.PathJoinEndsWith | python/wrapper.py:93 | the joined path ends with the second part and is at most one `/` longer than the two parts together |
| Wrapper.PkgCwd | python/wrapper.py:88-93 | as written: `/tmp/buildmod` exactly for `buildmod`; any other package raises `NameError` |
| Wrapper.PkgCwdDiscrepancy | python/wrapper.py:88-93 | every package other than `buildmod` raises, while for `buildmod` the as-written and intended versions agree |
| Wrapper.IntendedPkgCwdInCache | python/wrapper.py:92-93 | intended version: for a relative module path, the directory lies under `/go/pkg/mod/`, and its last part unescapes to the designator |
| Wrapper.ClassifyDownload | python/wrapper.py:119-128 | continuing to build implies the module downloaded, and happens exactly when the exit status is 0 |
| Wrapper.ClassifyDownloadMeaning | python/wrapper.py:119-128 | a download counts exactly when `go get` exits with 0, or its output has the build-constraints message, or either pattern matches |
| Wrapper.GoFmtCheck | python/wrapper.py:74-85 | true exactly when every Go file of the target is gofmt-clean; on failure, it stopped at the first file that is not clean |
| Wrapper.VisitTarget | python/wrapper.py:162-187 | one loop pass adds the target to the expected record fields |
| Wrapper.TestAndBuild | python/wrapper.py:138-199 | the download flag is the classification's; details are present exactly when the build continues, and then they are the counts of buildable and testable targets, the failed builds and tests, the passed and failed vets and the gofmt failures, each in target order |
| Wrapper.PartitionCount | python/wrapper.py:175-178 | two selections that split a third have sizes adding up to its size |
| Wrapper.VetsCoverBuildable | python/wrapper.py:175-178 | the passed and failed vet lists together have one entry per buildable target |
| Wrapper.PassFlagsMeanNoFailures | python/wrapper.py:169-187 | `allBuildsPass` holds exactly when every buildable target builds, and `allTestsPass` exactly when every testable target passes; the failure lists are empty exactly then |
| GenRescan.InsertNameSorted | python/gen_rescan.py:13-20 | inserting a name into a sorted list keeps it sorted |
| GenRescan.SortedNamesUnique | python/gen_rescan.py:13-20 | there is exactly one sorted arrangement of a collection of names |
| GenRescan.SortSet | python/gen_rescan.py:13-20 | `sorted` over the snapshot's names lists each name once in code-point order |
| GenRescan.Ordered | python/gen_rescan.py:13-20 | the sorted order of a set of names is ordered, lists each name once, and lists only its names |
| GenRescan.SortSetIsOrdered | python/gen_rescan.py:13-20 | any sorted listing of the names is that order |
| GenRescan.Block | python/gen_rescan.py:15-26 | a picked record prints the container command for its module and version, then `sleep 30`; for `rebuild`, a `# name` comment comes first |
| GenRescan.Picked | python/gen_rescan.py:14-22 | every picked name is a selected record |
| GenRescan.PickedMembers | python/gen_rescan.py:13-22 | a name is picked exactly when it is one of the names and its record is selected |
| GenRescan.PickedSorted | python/gen_rescan.py:13-20 | picked names keep the sorted order |
| GenRescan.SnapshotPicks | python/gen_rescan.py:12-26 | over a snapshot, `rescan` picks exactly the failed downloads and `rebuild` exactly the downloads whose builds failed, in sorted order |
| GenRescan.Blocks | python/gen_rescan.py:15-26 | a run that completes prints two lines per picked record for `rescan` and three for `rebuild` |
| GenRescan.FirstBad | python/gen_rescan.py:15-23 | the first picked name that does not split in two, with every name before it splitting |
| GenRescan.EmitMeaning | python/gen_rescan.py:12-26 | a run completes exactly when every picked name splits in two at `@`, printing one block per picked name; otherwise it raises at the first name that does not split, having printed the blocks of the names before it |
| GenRescan.FailureSticks | python/gen_rescan.py:15-23 | once the run has raised, later names print nothing |
| GenRescan.DesignatorRejoins | python/gen_rescan.py:15-25 | the module and version passed to the container rebuild the very key of the record |
| GenRescan.RunScript | python/gen_rescan.py:12-26 | the run of the sub-command over the sorted names of the snapshot |
| GenRescan.Lookup | python/gen_rescan.py:29 | only `rescan` and `rebuild` are sub-commands |
| GenRescan.Dispatch | python/gen_rescan.py:28-35 | no arguments raises at `args[0]`; an unknown sub-command prints `Unknown sub-command` and loads nothing; a known one without a file name raises at `args[1]`; otherwise that sub-command runs over the loaded snapshot |

## Left out

- The HTTP layer (pkg/handlers/handlers.go, cmd/server/main.go) is not part of this model. It covers request parsing, status codes, flags, the save ticker and the listener. pkg/handlers/handlers.go:45 calls `SetPackageData` without claiming the name first, which meets the precondition of `PkgData.Store.SetPackageData` only when the name is already stored.
- PkgData.Store.SetPackageData: requires the name to be stored. The nil dereference on an absent name, which pkg/handlers/handlers.go:45 can reach, is not modelled.
- pkg/validation/validator.go is not part of this model: it is a worker pool that spawns container processes.
- The file system and encodings are inputs rather than models:
  - `os.Stat`, `os.Create`, the write itself, `filepath.Glob` and `filepath.Join`;
  - JSON encoding and decoding;
  - RFC 3339 time stamps, which are formatted strings here.
- `dataLock` is left out: every store method runs on its own, without interleaving.
- `AllPackages` returns a sequence rather than a channel fed by a goroutine. Its order is arbitrary, as Go's map iteration is.
- PkgData.Store.PurgePackage: pkg/pkgdata/data.go does not define it. Its contract is what the clean pass needs of it: it removes the name and marks the store dirty. This is an assumption.
- `PurgeDownloadFailed` is defined in none of the files modelled, and nothing modelled calls it, so it is left out.
- `PackageStats` has seven fields. The extra fields tabulate reads (vet and gofmt lists) are left out.
- The floating-point statistics of tabulate are left out: `accumulator.process`, `meanAndDev`, `percent`, the `downloadFailed` counter, and the LaTeX `emit*` output.
- Tabulate.Percentiles and Tabulate.MostN: the samples and counts are unbounded integers, not `float64` and `int64`. Only their order is used.
- Tabulate.MostN.constructor: takes a `nat`, because a negative size makes Go's `make` panic.
- Sorting.SortByKey: `sort.Sort` and `sort.Float64s` are not stable. The model sorts with an insertion sort and promises only order and permutation. Which of several equal-count entries the buffer keeps can therefore differ from Go.
- Deciders.IncommensurateNameMeaning: the `v1` prefix test also exempts majors `v10` to `v19`. The model keeps this behaviour, as written.
- Wrapper.GoEscape: Python's `isupper` and `lower` also cover non-ASCII letters. The model escapes only `A` to `Z`.
- Wrapper.ClassifyDownload: whether `BIN_IMPORT_RE` and `VET_TYPE_RE` match the output is an input, not a regular-expression model.
- The subprocess calls of wrapper.py are oracles: `go mod edit`, `go get`, `go list` (introspection), `go build`, `go vet`, `go test` and `gofmt`.
- The rest of wrapper.py is left out: `prepare_build`, `send_report`, `process`, `main`, `parse_multi_json` and logging.
- Wrapper.TestAndBuild: a target lacking the `Dir` or `ImportPath` key, which would raise `KeyError`, is not modelled. A missing `GoFiles` or `TestGoFiles` key reads as empty.
- GenRescan.Dispatch: reading and decoding the snapshot file is a parameter. A missing or malformed file, which raises, is not modelled, and the snapshot records always carry both flags that are read.
- The model is a sequence of printed lines; the text each line prints is `GenRescan.Render`. The printing itself is left out.

## Findings

| source | as written | input that shows it | evidently intended | confidence | as-written member | corrected member |
|---|---|---|---|---|---|---|
| python/wrapper.py:92 | the escaped path is built from `versionn`, a name that is not defined, so `pkg_cwd` raises `NameError` for every package except `buildmod` | `pkg_cwd("example.com/m", "v1.0.0")` | build the path from `version`: `/go/pkg/mod/` followed by the escaped `pkg@version`, which unescapes back to the designator | high (not executed) | Wrapper.PkgCwdDiscrepancy | Wrapper.IntendedPkgCwdInCache |

The wrapper itself only ever calls `pkg_cwd("buildmod", ...)`, where both versions agree.
