/**
  The decision logic of python/wrapper.py, the script that downloads,
  builds, vets and tests one module version and reports a record for it.
  Every subprocess (`go get`, `go list`, `go build`, `go vet`, `go test`,
  `gofmt`) is an oracle: its outcome is an input of the model.
 */
module Wrapper {
  import opened Wrappers
  import opened Strings
  import opened PkgData

  /** `pkg_and_version`: the `pkg@version` designator. */
  function PkgAndVersion(pkg: string, version: string): string
  {
    pkg + "@" + version
  }

  /** The designator is the key the store files the report under, and splits back at `@`. */
  lemma PkgAndVersionIsKey(pkg: string, version: string)
    requires '@' !in pkg && '@' !in version
    ensures PkgAndVersion(pkg, version) == BuildPackageName(pkg, version)
    ensures Split(PkgAndVersion(pkg, version), '@') == [pkg, version]
  {
    BuildPackageNameSplits(pkg, version);
  }

  predicate IsUpper(c: char)
  {
    'A' <= c <= 'Z'
  }

  predicate IsLower(c: char)
  {
    'a' <= c <= 'z'
  }

  function ToLower(c: char): (l: char)
    requires IsUpper(c)
    ensures IsLower(l)
  {
    (c as int + 32) as char
  }

  function ToUpper(c: char): (u: char)
    requires IsLower(c)
    ensures IsUpper(u)
  {
    (c as int - 32) as char
  }

  /** `go_escape`: an upper-case letter becomes `!` and its lower-case form; anything else stays. */
  function GoEscape(c: char): (e: string)
    ensures IsUpper(c) ==> e == ['!', ToLower(c)]
    ensures !IsUpper(c) ==> e == [c]
  {
    if IsUpper(c) then ['!', ToLower(c)] else [c]
  }

  /** The `''.join` of `go_escape` over every character. */
  function Escape(s: string): (e: string)
    ensures |e| == |s| + Uppers(s)
  {
    if |s| == 0 then [] else GoEscape(s[0]) + Escape(s[1..])
  }

  function Uppers(s: string): nat
  {
    if |s| == 0 then 0 else (if IsUpper(s[0]) then 1 else 0) + Uppers(s[1..])
  }

  /** The inverse of `Escape`, as Go's module cache reads an escaped path. */
  function Unescape(e: string): string
  {
    if |e| == 0 then []
    else if e[0] == '!' && |e| >= 2 && IsLower(e[1]) then [ToUpper(e[1])] + Unescape(e[2..])
    else [e[0]] + Unescape(e[1..])
  }

  /** Escaping loses nothing for text without `!`, which module paths never contain. */
  lemma {:induction false} EscapeRoundTrip(s: string)
    requires '!' !in s
    ensures Unescape(Escape(s)) == s
  {
    if |s| > 0 {
      assert '!' !in s[1..];
      EscapeRoundTrip(s[1..]);
      var rest := Escape(s[1..]);
      if IsUpper(s[0]) {
        assert Escape(s)[2..] == rest;
      } else {
        assert Escape(s)[1..] == rest;
      }
      assert s == [s[0]] + s[1..];
    }
  }

  /** Escaped text has no upper-case letters. */
  lemma {:induction false} EscapeHasNoUpper(s: string)
    ensures forall i | 0 <= i < |Escape(s)| :: !IsUpper(Escape(s)[i])
  {
    if |s| > 0 {
      EscapeHasNoUpper(s[1..]);
      var head, rest := GoEscape(s[0]), Escape(s[1..]);
      forall i | 0 <= i < |head + rest|
        ensures !IsUpper((head + rest)[i])
      {
        if i >= |head| {
          assert (head + rest)[i] == rest[i - |head|];
        }
      }
    }
  }

  /**
    `os.path.join(a, b)`: an absolute `b` wins; otherwise `b` follows `a`,
    with a `/` between them unless `a` is empty or already ends in one.
   */
  function PathJoin(a: string, b: string): (p: string)
    ensures HasPrefix(b, "/") ==> p == b
    ensures !HasPrefix(b, "/") && (a == "" || HasSuffix(a, "/")) ==> p == a + b
    ensures !HasPrefix(b, "/") && a != "" && !HasSuffix(a, "/") ==> p == a + "/" + b
  {
    if |b| > 0 && b[0] == '/' then b
    else if |a| == 0 || a[|a| - 1] == '/' then a + b
    else a + "/" + b
  }

  /** The joined path ends with its second part, `/` only added between. */
  lemma PathJoinEndsWith(a: string, b: string)
    ensures HasSuffix(PathJoin(a, b), b)
    ensures |PathJoin(a, b)| <= |a| + 1 + |b|
  {
    var p := PathJoin(a, b);
    assert p[|p| - |b|..] == b;
  }

  /** Where a module's sources are built: a directory, or the Python error the lookup raises. */
  datatype CwdResult = Cwd(path: string) | NameError(name: string)

  /**
    `pkg_cwd` as written: `buildmod` has its own directory; for any other
    package the escaped path is computed from the name `versionn`, which is
    not defined, so the call raises `NameError`.
   */
  function PkgCwd(pkg: string, version: string): (r: CwdResult)
    ensures r.Cwd? <==> pkg == "buildmod"
    ensures r.Cwd? ==> r.path == "/tmp/buildmod"
  {
    if pkg == "buildmod" then Cwd("/tmp/buildmod") else NameError("versionn")
  }

  /** The module cache directory the escaped path is joined to. */
  const ModCache := "/go/pkg/mod"

  /**
    `pkg_cwd` as evidently intended, with `version` in place of `versionn`:
    the module cache entry for the escaped `pkg@version`.
   */
  function IntendedPkgCwd(pkg: string, version: string): (path: string)
  {
    if pkg == "buildmod" then "/tmp/buildmod" else PathJoin(ModCache, Escape(PkgAndVersion(pkg, version)))
  }

  /** Every package other than `buildmod` raises; with `buildmod` both readings agree. */
  lemma PkgCwdDiscrepancy(pkg: string, version: string)
    ensures pkg != "buildmod" ==> PkgCwd(pkg, version) == NameError("versionn")
    ensures pkg == "buildmod" ==> PkgCwd(pkg, version) == Cwd(IntendedPkgCwd(pkg, version))
  {
  }

  /**
    The intended directory of a relative module path lies in the module
    cache and reads back as the designator.
   */
  lemma IntendedPkgCwdInCache(pkg: string, version: string)
    requires pkg != "buildmod" && !HasPrefix(pkg, "/")
    requires '!' !in pkg && '!' !in version
    ensures var path := IntendedPkgCwd(pkg, version);
      && HasPrefix(path, ModCache + "/")
      && Unescape(path[|ModCache| + 1..]) == PkgAndVersion(pkg, version)
  {
    var designator := PkgAndVersion(pkg, version);
    assert '!' !in designator;
    EscapeRoundTrip(designator);
    if |pkg| > 0 {
      assert Escape(designator)[..|GoEscape(pkg[0])|] == GoEscape(pkg[0]);
      assert !HasPrefix(Escape(designator), "/");
    } else {
      assert Escape(designator)[0] == '@';
    }
    var path := IntendedPkgCwd(pkg, version);
    assert path == ModCache + "/" + Escape(designator);
    assert path[|ModCache| + 1..] == Escape(designator);
  }

  // `download`: the classification of `go get`'s exit status and output.

  /** The `go get` message that still counts as a download. */
  const BuildConstraintsMessage := "build constraints exclude all Go files"

  /**
    What the `go get` run reports: its exit status, its combined output, and
    whether `BIN_IMPORT_RE` and `VET_TYPE_RE` find a match in that output.
   */
  datatype GetRun = GetRun(returnCode: int, output: string, binImportMatch: bool, vetTypeMatch: bool)

  /** The pair `download` returns: whether the module downloaded, and whether to go on building. */
  datatype Downloaded = Downloaded(downloaded: bool, cont: bool)

  /**
    `download`: a zero exit status is a full success; otherwise one of the
    three known messages means the module arrived but there is nothing to
    build; anything else is a failed download.
   */
  function ClassifyDownload(run: GetRun): (r: Downloaded)
    ensures r.cont ==> r.downloaded
    ensures r.cont <==> run.returnCode == 0
  {
    if run.returnCode == 0 then Downloaded(true, true)
    else if Contains(run.output, BuildConstraintsMessage) then Downloaded(true, false)
    else if run.binImportMatch then Downloaded(true, false)
    else if run.vetTypeMatch then Downloaded(true, false)
    else Downloaded(false, false)
  }

  /** A download counts exactly when `go get` succeeded or failed with one of the known messages. */
  lemma ClassifyDownloadMeaning(run: GetRun)
    ensures ClassifyDownload(run).downloaded <==>
      || run.returnCode == 0
      || Contains(run.output, BuildConstraintsMessage)
      || run.binImportMatch
      || run.vetTypeMatch
  {
  }

  // The build loop of `test_and_build`.

  /**
    One entry of `go list -json`: its import path, directory, and its
    `GoFiles` and `TestGoFiles` (empty when the key is absent).
   */
  datatype Target = Target(importPath: string, dir: string, goFiles: seq<string>, testGoFiles: seq<string>)

  /** The outcomes of the external tools: `gofmt -d` on a file, and `go build`/`vet`/`test` on an import path. */
  datatype Toolchain = Toolchain(
    gofmtClean: string -> bool,
    build: string -> bool,
    vet: string -> bool,
    test: string -> bool)

  /** Every Go file of the target needs no reformatting. */
  predicate FmtClean(target: Target, gofmtClean: string -> bool)
  {
    forall i | 0 <= i < |target.goFiles| :: gofmtClean(PathJoin(target.dir, target.goFiles[i]))
  }

  /**
    `go_fmt_check`: run `gofmt` on the target's Go files in order and stop at
    the first that needs changes.  `checked` is how many files were run.
   */
  method GoFmtCheck(target: Target, gofmtClean: string -> bool) returns (ok: bool, ghost checked: nat)
    ensures ok <==> FmtClean(target, gofmtClean)
    ensures ok ==> checked == |target.goFiles|
    ensures !ok ==> 0 < checked <= |target.goFiles|
    ensures !ok ==> !gofmtClean(PathJoin(target.dir, target.goFiles[checked - 1]))
    ensures !ok ==> forall i | 0 <= i < checked - 1 :: gofmtClean(PathJoin(target.dir, target.goFiles[i]))
  {
    var result := true;
    var i := 0;
    checked := 0;
    while i < |target.goFiles|
      invariant 0 <= i <= |target.goFiles| && checked == i
      invariant result
      invariant forall j | 0 <= j < i :: gofmtClean(PathJoin(target.dir, target.goFiles[j]))
    {
      result := result && gofmtClean(PathJoin(target.dir, target.goFiles[i]));
      i := i + 1;
      checked := i;
      if !result {
        return false, checked;
      }
    }
    return result, checked;
  }

  /** The targets of `ts` that `p` selects, in order. */
  function TargetsWhere(ts: seq<Target>, p: Target -> bool): (r: seq<Target>)
    ensures |r| <= |ts|
    ensures forall i | 0 <= i < |r| :: p(r[i])
  {
    if |ts| == 0 then []
    else TargetsWhere(ts[..|ts| - 1], p) + (if p(ts[|ts| - 1]) then [ts[|ts| - 1]] else [])
  }

  /** The import paths of the targets of `ts` that `p` selects, in order. */
  function PathsWhere(ts: seq<Target>, p: Target -> bool): (r: seq<string>)
    ensures |r| == |TargetsWhere(ts, p)|
    ensures forall i | 0 <= i < |r| :: r[i] == TargetsWhere(ts, p)[i].importPath
  {
    if |ts| == 0 then []
    else PathsWhere(ts[..|ts| - 1], p) + (if p(ts[|ts| - 1]) then [ts[|ts| - 1].importPath] else [])
  }

  /** When `p` and `q` split the targets `r` selects, their counts add up to its count. */
  lemma {:induction false} PartitionCount(ts: seq<Target>, r: Target -> bool, p: Target -> bool, q: Target -> bool)
    requires forall t :: r(t) <==> p(t) || q(t)
    requires forall t :: !(p(t) && q(t))
    ensures |TargetsWhere(ts, p)| + |TargetsWhere(ts, q)| == |TargetsWhere(ts, r)|
  {
    if |ts| > 0 {
      PartitionCount(ts[..|ts| - 1], r, p, q);
    }
  }

  /** An empty selection means nothing was selected. */
  lemma {:induction false} TargetsWhereEmpty(ts: seq<Target>, p: Target -> bool)
    ensures TargetsWhere(ts, p) == [] <==> forall i | 0 <= i < |ts| :: !p(ts[i])
  {
    if |ts| > 0 {
      var init := ts[..|ts| - 1];
      TargetsWhereEmpty(init, p);
      assert forall i | 0 <= i < |init| :: init[i] == ts[i];
    }
  }

  predicate Buildable(t: Target)
  {
    |t.goFiles| > 0
  }

  predicate Testable(t: Target)
  {
    |t.testGoFiles| > 0
  }

  /** The fields `test_and_build` adds once there is something to build. */
  datatype Details = Details(
    buildableTargets: int,
    allBuildsPass: bool,
    testableTargets: int,
    allTestsPass: bool,
    failedBuilds: seq<string>,
    failedTests: seq<string>,
    passedVets: seq<string>,
    failedVets: seq<string>,
    failedFmt: seq<Target>)

  /** The report `test_and_build` returns: the download flag, and the details when it got that far. */
  datatype Report = Report(downloadSucceeded: bool, details: Option<Details>)

  /** The details a build loop over `ts` must arrive at. */
  function ExpectedDetails(ts: seq<Target>, tools: Toolchain): Details
  {
    var failedBuilds := PathsWhere(ts, t => Buildable(t) && !tools.build(t.importPath));
    var failedTests := PathsWhere(ts, t => Testable(t) && !tools.test(t.importPath));
    Details(
      |TargetsWhere(ts, Buildable)|,
      failedBuilds == [],
      |TargetsWhere(ts, Testable)|,
      failedTests == [],
      failedBuilds,
      failedTests,
      PathsWhere(ts, t => Buildable(t) && tools.vet(t.importPath)),
      PathsWhere(ts, t => Buildable(t) && !tools.vet(t.importPath)),
      TargetsWhere(ts, t => Buildable(t) && !FmtClean(t, tools.gofmtClean)))
  }

  /** Adding one target to the expected details of `ts`: its build half, then its test half. */
  function StepDetails(d: Details, t: Target, tools: Toolchain): Details
  {
    TestStep(BuildStep(d, t, tools), t, tools)
  }

  /** A target with Go files is gofmt-checked, built and vetted. */
  function BuildStep(d: Details, t: Target, tools: Toolchain): Details
  {
    if Buildable(t) then
      d.(buildableTargets := d.buildableTargets + 1,
         allBuildsPass := d.allBuildsPass && tools.build(t.importPath),
         failedBuilds := d.failedBuilds + (if tools.build(t.importPath) then [] else [t.importPath]),
         passedVets := d.passedVets + (if tools.vet(t.importPath) then [t.importPath] else []),
         failedVets := d.failedVets + (if tools.vet(t.importPath) then [] else [t.importPath]),
         failedFmt := d.failedFmt + (if FmtClean(t, tools.gofmtClean) then [] else [t]))
    else d
  }

  /** A target with test files is tested. */
  function TestStep(d: Details, t: Target, tools: Toolchain): Details
  {
    if Testable(t) then
      d.(testableTargets := d.testableTargets + 1,
         allTestsPass := d.allTestsPass && tools.test(t.importPath),
         failedTests := d.failedTests + (if tools.test(t.importPath) then [] else [t.importPath]))
    else d
  }

  /** The expected details of one more target are one step from those before it. */
  lemma ExpectedDetailsStep(ts: seq<Target>, t: Target, tools: Toolchain)
    ensures ExpectedDetails(ts + [t], tools) == StepDetails(ExpectedDetails(ts, tools), t, tools)
  {
    assert (ts + [t])[..|ts|] == ts;
  }

  /**
    One pass of the loop of `test_and_build`: a target with Go files is
    gofmt-checked, built and vetted; a target with test files is tested.
   */
  method VisitTarget(acc: Details, target: Target, tools: Toolchain) returns (next: Details)
    ensures next == StepDetails(acc, target, tools)
  {
    next := VisitBuild(acc, target, tools);
    next := VisitTest(next, target, tools);
  }

  method VisitBuild(acc: Details, target: Target, tools: Toolchain) returns (next: Details)
    ensures next == BuildStep(acc, target, tools)
  {
    next := acc;
    if |target.goFiles| > 0 {
      var fmtOk, _ := GoFmtCheck(target, tools.gofmtClean);
      if !fmtOk {
        next := next.(failedFmt := next.failedFmt + [target]);
      }
      next := next.(buildableTargets := next.buildableTargets + 1);
      if !tools.build(target.importPath) {
        next := next.(allBuildsPass := false, failedBuilds := next.failedBuilds + [target.importPath]);
      }
      if tools.vet(target.importPath) {
        next := next.(passedVets := next.passedVets + [target.importPath]);
      } else {
        next := next.(failedVets := next.failedVets + [target.importPath]);
      }
    }
  }

  method VisitTest(acc: Details, target: Target, tools: Toolchain) returns (next: Details)
    ensures next == TestStep(acc, target, tools)
  {
    next := acc;
    if |target.testGoFiles| > 0 {
      next := next.(testableTargets := next.testableTargets + 1);
      if !tools.test(target.importPath) {
        next := next.(allTestsPass := false, failedTests := next.failedTests + [target.importPath]);
      }
    }
  }

  /**
    `test_and_build`: classify the download and stop early when it failed
    or left nothing to build; otherwise visit every target `go list`
    reported, collecting the counts, flags and lists of the record.
   */
  method TestAndBuild(get: GetRun, targets: seq<Target>, tools: Toolchain) returns (report: Report)
    ensures report.downloadSucceeded == ClassifyDownload(get).downloaded
    ensures report.details.Some? <==> ClassifyDownload(get).cont
    ensures report.details.Some? ==> report.details.value == ExpectedDetails(targets, tools)
  {
    var dl := ClassifyDownload(get);
    if !dl.downloaded {
      return Report(false, None);
    }
    if !dl.cont {
      return Report(true, None);
    }
    var acc := Details(0, true, 0, true, [], [], [], [], []);
    var i := 0;
    while i < |targets|
      invariant 0 <= i <= |targets|
      invariant acc == ExpectedDetails(targets[..i], tools)
    {
      ExpectedDetailsStep(targets[..i], targets[i], tools);
      assert targets[..i + 1] == targets[..i] + [targets[i]];
      acc := VisitTarget(acc, targets[i], tools);
      i := i + 1;
    }
    assert targets[..i] == targets;
    report := Report(true, Some(acc));
  }

  /** Each buildable target lands in exactly one of the vet lists. */
  lemma VetsCoverBuildable(ts: seq<Target>, tools: Toolchain)
    ensures var d := ExpectedDetails(ts, tools);
      |d.passedVets| + |d.failedVets| == d.buildableTargets
  {
    PartitionCount(ts, Buildable, t => Buildable(t) && tools.vet(t.importPath), t => Buildable(t) && !tools.vet(t.importPath));
  }

  /** The pass flags say exactly that no target failed to build, or to test. */
  lemma PassFlagsMeanNoFailures(ts: seq<Target>, tools: Toolchain)
    ensures var d := ExpectedDetails(ts, tools);
      && (d.allBuildsPass <==> forall i | 0 <= i < |ts| :: Buildable(ts[i]) ==> tools.build(ts[i].importPath))
      && (d.allTestsPass <==> forall i | 0 <= i < |ts| :: Testable(ts[i]) ==> tools.test(ts[i].importPath))
  {
    TargetsWhereEmpty(ts, t => Buildable(t) && !tools.build(t.importPath));
    TargetsWhereEmpty(ts, t => Testable(t) && !tools.test(t.importPath));
  }
}
