/**
  The decision predicates of pkg/deciders/deciders.go: string heuristics over
  a package name `module@version` that flag records worth discarding.
 */
module Deciders {
  import opened Strings
  import opened PkgData

  /** Module paths that are known not to be modules on their own. */
  const Shortened: seq<string> := ["honnef.co/go", "cloud.google.com/go", "dmitri.shuralyov.com/gpu", "golang.org/x"]

  /** `modName`: the text before the first `@`, or the whole name when there is none. */
  function ModName(pkg: Package): (mod: string)
    ensures '@' !in mod
    ensures HasPrefix(pkg.name, mod)
    ensures '@' in pkg.name ==> |mod| < |pkg.name| && pkg.name[|mod|] == '@'
    ensures '@' !in pkg.name ==> mod == pkg.name
  {
    var atPos := IndexOf(pkg.name, '@');
    var atPos := if atPos == -1 then |pkg.name| else atPos;
    pkg.name[..atPos]
  }

  /**
    `IncommensurateName`: a version of major 2 or more whose module path
    does not end in the matching `/vN`.  Versions not starting with `v`, or
    starting with `v0` or `v1` (so also `v10`, `v11`, ...), and versions
    ending in `ible` (`+incompatible`) are never flagged.  The name must
    contain `@`: the Go code indexes the second piece of the split.
   */
  function IncommensurateName(pkg: Package): bool
    requires '@' in pkg.name
  {
    var split := Split(pkg.name, '@');
    var name, version := split[0], split[1];
    if !HasPrefix(version, "v") then false
    else if HasPrefix(version, "v0") then false
    else if HasPrefix(version, "v1") then false
    else if HasSuffix(version, "ible") then false
    else
      var vn := Split(version, '.')[0];
      var components := Split(name, '/');
      components[|components| - 1] != vn
  }

  /** `DomainOnly`: the module part is a bare host name, without any `/`. */
  function DomainOnly(pkg: Package): (r: bool)
    ensures r <==> '/' !in ModName(pkg)
  {
    IndexOf(ModName(pkg), '/') == -1
  }

  /** The loop over `shortened`: an exact match, not a prefix test. */
  function ListedIn(name: string, list: seq<string>): (r: bool)
    ensures r <==> name in list
  {
    if |list| == 0 then false
    else if name == list[0] then true
    else ListedIn(name, list[1..])
  }

  /**
    `Banned`: a forge root with a single path component after it (exactly
    two `/`-pieces under a `github.com` or `bitbucket.org` prefix), or
    exactly one of the `Shortened` paths.
   */
  function Banned(pkg: Package): bool
  {
    var name := ModName(pkg);
    if HasPrefix(name, "github.com") && |Split(name, '/')| == 2 then true
    else if HasPrefix(name, "bitbucket.org") && |Split(name, '/')| == 2 then true
    else ListedIn(name, Shortened)
  }

  /** The text of a version before its first `.`: its major-version token. */
  function Major(version: string): (vn: string)
  {
    version[..if '.' in version then IndexOf(version, '.') else |version|]
  }

  /** The module path ends in the path element `vn`: it is `vn`, or ends in `/` followed by `vn`. */
  predicate EndsInElement(mod: string, vn: string)
  {
    '/' !in vn && (mod == vn || HasSuffix(mod, "/" + vn))
  }

  /** The last `/`-piece of `mod` is `vn` exactly when `mod` ends in the path element `vn`. */
  lemma LastComponentIs(mod: string, vn: string)
    ensures var components := Split(mod, '/');
      components[|components| - 1] == vn <==> EndsInElement(mod, vn)
  {
    if '/' !in mod {
      SplitNoSeparator(mod, '/');
      SuffixHead(mod, "/" + vn);
    } else {
      LastComponentWithSlash(mod, vn);
    }
  }

  lemma LastComponentWithSlash(mod: string, vn: string)
    requires '/' in mod
    ensures var components := Split(mod, '/');
      components[|components| - 1] == vn <==> EndsInElement(mod, vn)
  {
    var components := Split(mod, '/');
    var last := components[|components| - 1];
    LastComponentEnds(mod);
    if EndsInElement(mod, vn) {
      ElementIsLastComponent(mod, vn);
    }
  }

  lemma LastComponentEnds(mod: string)
    requires '/' in mod
    ensures var components := Split(mod, '/');
      EndsInElement(mod, components[|components| - 1])
  {
    SplitLastSuffix(mod, '/');
    var components := Split(mod, '/');
    assert '/' !in components[|components| - 1];
  }

  lemma ElementIsLastComponent(mod: string, vn: string)
    requires '/' in mod && EndsInElement(mod, vn)
    ensures var components := Split(mod, '/');
      components[|components| - 1] == vn
  {
    var n := |mod|;
    var p := mod[..n - |vn| - 1];
    assert mod == p + ['/'] + vn;
    SplitAppend(p, '/', vn);
    SplitNoSeparator(vn, '/');
  }

  /** The module part of a name built from an `@`-free module is that module. */
  lemma ModNameOfBuilt(mod: string, version: string, stats: Stats)
    requires '@' !in mod
    ensures ModName(Package(BuildPackageName(mod, version), stats)) == mod
  {
    IndexOfJoined(mod, '@', version);
    assert BuildPackageName(mod, version)[..|mod|] == mod;
  }

  /** The major token of `prefix.rest` for a `.`-free prefix. */
  lemma MajorOf(prefix: string, rest: string)
    requires '.' !in prefix
    ensures Major(prefix + "." + rest) == prefix
  {
    IndexOfJoined(prefix, '.', rest);
    assert (prefix + "." + rest)[|prefix|] == '.';
  }

  /**
    For a name built from an `@`-free module and version, `IncommensurateName`
    flags exactly the `v`-versions outside `v0*`/`v1*`, not ending in `ible`,
    whose major token is not the module path's last element.
   */
  lemma IncommensurateNameMeaning(mod: string, version: string, stats: Stats)
    requires '@' !in mod && '@' !in version
    ensures '@' in BuildPackageName(mod, version)
    ensures IncommensurateName(Package(BuildPackageName(mod, version), stats)) <==>
      && HasPrefix(version, "v")
      && !HasPrefix(version, "v0")
      && !HasPrefix(version, "v1")
      && !HasSuffix(version, "ible")
      && !EndsInElement(mod, Major(version))
  {
    var name := BuildPackageName(mod, version);
    assert name[|mod|] == '@';
    BuildPackageNameSplits(mod, version);
    SplitFirst(version, '.');
    LastComponentIs(mod, Major(version));
  }

  /** The form of the `Banned` test that counts `/` instead of split pieces. */
  lemma BannedMeaning(pkg: Package)
    ensures var name := ModName(pkg);
      Banned(pkg) <==>
        || ((HasPrefix(name, "github.com") || HasPrefix(name, "bitbucket.org")) && Occurrences(name, '/') == 1)
        || name in Shortened
  {
    SplitCount(ModName(pkg), '/');
  }

  // The cases of `TestDomainOnly` in pkg/deciders/deciders_test.go.

  lemma DomainOnlyBareHost(mod: string, version: string)
    requires mod == "github.com" && version == "foo"
    ensures DomainOnly(Package(BuildPackageName(mod, version), ZeroStats))
  {
    assert '@' !in mod && '/' !in mod;
    ModNameOfBuilt(mod, version, ZeroStats);
  }

  lemma DomainOnlyWithPath(mod: string, version: string)
    requires mod == "github.com/foo" && version == "foo"
    ensures !DomainOnly(Package(BuildPackageName(mod, version), ZeroStats))
  {
    assert '@' !in mod && mod[10] == '/';
    ModNameOfBuilt(mod, version, ZeroStats);
  }

  // The cases of `TestIncommensurateName` in pkg/deciders/deciders_test.go.

  /** The version facts the cases with `v2.0.0` rely on. */
  lemma MajorTwo(version: string)
    requires version == "v2.0.0"
    ensures HasPrefix(version, "v") && !HasPrefix(version, "v0") && !HasPrefix(version, "v1")
    ensures !HasSuffix(version, "ible") && Major(version) == "v2"
  {
    assert version[..1] == "v";
    assert version[1] == '2';
    assert version[2] == '.';
    MajorOf("v2", "0.0");
  }

  lemma IncommensurateOtherMajorPath(mod: string, version: string)
    requires mod == "example.com/code/v1" || mod == "example.com/code/v3"
    requires version == "v2.0.0"
    ensures '@' in BuildPackageName(mod, version)
    ensures IncommensurateName(Package(BuildPackageName(mod, version), ZeroStats))
  {
    assert '@' !in mod;
    IncommensurateNameMeaning(mod, version, ZeroStats);
    MajorTwo(version);
    OtherMajorPath(mod);
  }

  lemma OtherMajorPath(mod: string)
    requires mod == "example.com/code/v1" || mod == "example.com/code/v3"
    ensures !EndsInElement(mod, "v2")
  {
    assert mod[|mod| - 1] != '2';
  }

  lemma IncommensurateMatchingPath(mod: string, version: string)
    requires mod == "example.com/code/v2" && version == "v2.0.0"
    ensures '@' in BuildPackageName(mod, version)
    ensures !IncommensurateName(Package(BuildPackageName(mod, version), ZeroStats))
  {
    assert '@' !in mod;
    IncommensurateNameMeaning(mod, version, ZeroStats);
    MajorTwo(version);
    MatchingPath(mod);
  }

  lemma MatchingPath(mod: string)
    requires mod == "example.com/code/v2"
    ensures EndsInElement(mod, "v2")
  {
    assert mod[|mod| - 3..] == "/v2";
  }

  lemma IncommensurateUnversionedPath(mod: string, version: string)
    requires mod == "example.com/code" && version == "v2.0.0"
    ensures '@' in BuildPackageName(mod, version)
    ensures IncommensurateName(Package(BuildPackageName(mod, version), ZeroStats))
  {
    assert '@' !in mod;
    IncommensurateNameMeaning(mod, version, ZeroStats);
    MajorTwo(version);
    assert mod[|mod| - 1] == 'e';
  }

  lemma IncommensurateLowMajor(mod: string, version: string)
    requires mod == "example.com/code" && (version == "v0.0.0" || version == "v1.0.0")
    ensures '@' in BuildPackageName(mod, version)
    ensures !IncommensurateName(Package(BuildPackageName(mod, version), ZeroStats))
  {
    assert '@' !in mod && '@' !in version;
    IncommensurateNameMeaning(mod, version, ZeroStats);
    assert version[..2] == [version[0], version[1]];
  }

  lemma IncommensurateIncompatible(mod: string, version: string)
    requires mod == "example.com/code" && version == "v2.0.0+incompatible"
    ensures '@' in BuildPackageName(mod, version)
    ensures !IncommensurateName(Package(BuildPackageName(mod, version), ZeroStats))
  {
    assert '@' !in mod && '@' !in version;
    IncommensurateNameMeaning(mod, version, ZeroStats);
    assert version[|version| - 4..] == "ible";
  }
}
