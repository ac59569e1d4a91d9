/**
  The bookkeeping of cmd/tabulate/main.go that is not floating-point
  statistics: the `nMost` top-N buffer, `mostFrequentModules`, the
  per-module version counts of `statsRun`, and the index arithmetic of
  `percentiles`.  Go's `int64` counts are unbounded integers here, and the
  `float64` samples of `percentiles` are integers: only their order matters.
 */
module Tabulate {
  import opened Strings
  import opened PkgData
  import opened Deciders
  import opened Sorting
  import opened Wrappers

  /** `moduleFromPackage`: the first `@`-piece of a package name. */
  function ModuleFromPackage(pkg: string): (mod: string)
  {
    Split(pkg, '@')[0]
  }

  /** It agrees with the deciders' `modName`: the text before the first `@`, or all of it. */
  lemma ModuleFromPackageIsModName(pkg: string, stats: Stats)
    ensures ModuleFromPackage(pkg) == ModName(Package(pkg, stats))
    ensures '@' !in ModuleFromPackage(pkg)
  {
    SplitFirst(pkg, '@');
  }

  /** It recovers the module from a name built by `BuildPackageName`. */
  lemma ModuleFromBuiltName(mod: string, version: string)
    requires '@' !in mod
    ensures ModuleFromPackage(BuildPackageName(mod, version)) == mod
  {
    ModuleFromPackageIsModName(BuildPackageName(mod, version), ZeroStats);
    ModNameOfBuilt(mod, version, ZeroStats);
  }

  /** `mostData`: a module name with its count. */
  datatype MostData = MostData(name: string, count: int)

  /** The zero value of `mostData`, which fills the buffer `newMostN` allocates. */
  const Zero := MostData("", 0)

  /**
    The sort key of `nMost`: `Less(i, j)` is `count_i > count_j`, so
    sorting by this key ascending is sorting by count descending.
   */
  function NegCount(d: MostData): int
  {
    -d.count
  }

  /** Counts never increase along `s`. */
  ghost predicate NonIncreasing(s: seq<MostData>)
  {
    forall i, j | 0 <= i < j < |s| :: s[i].count >= s[j].count
  }

  /** No entry dropped from the buffer has a larger count than one kept. */
  ghost predicate Dominates(top: seq<MostData>, dropped: multiset<MostData>)
  {
    forall y, i | y in dropped && 0 <= i < |top| :: y.count <= top[i].count
  }

  /** Two equal slots make an element occur at least twice. */
  lemma TwoOccurrences(s: seq<MostData>, i: int, j: int)
    requires 0 <= i < j < |s| && s[i] == s[j]
    ensures multiset(s)[s[i]] >= 2
  {
    assert s == s[..j] + [s[j]] + s[j + 1..];
    assert s[..j][i] == s[i];
  }

  /** An element occurring at most once is found in no two slots. */
  lemma DistinctSlots(s: seq<MostData>, i: int, j: int)
    requires 0 <= i < j < |s| && multiset(s)[s[i]] <= 1
    ensures s[i] != s[j]
  {
    if s[i] == s[j] {
      TwoOccurrences(s, i, j);
    }
  }

  /**
    One overflowing `observe`: the buffer held `top`, `x` was written into
    the spare slot and the n+1 entries were sorted into `after`.  The one
    that lands in the spare slot joins the dropped ones, and the kept ones
    still dominate them.
   */
  lemma TopStep(top: seq<MostData>, dropped: multiset<MostData>, x: MostData, after: seq<MostData>)
    requires Dominates(top, dropped)
    requires |after| == |top| + 1
    requires SortedBy(after, NegCount)
    requires multiset(after) == multiset(top) + multiset{x}
    ensures Dominates(after[..|top|], dropped + multiset{after[|top|]})
    ensures multiset(after[..|top|]) + multiset{after[|top|]} == multiset(after)
  {
    var n := |top|;
    var m := after[n];
    assert after == after[..n] + [m];
    forall y, i | y in dropped + multiset{m} && 0 <= i < n
      ensures y.count <= after[..n][i].count
    {
      var z := after[i];
      assert NegCount(z) <= NegCount(m);
      if y != m {
        assert z in multiset(after);
        if z in multiset(top) {
          var j :| 0 <= j < n && top[j] == z;
        } else {
          assert z == x && multiset(after)[z] == 1;
          DistinctSlots(after, i, n);
          assert m in multiset(after);
          assert m in multiset(top);
          var j :| 0 <= j < n && top[j] == m;
        }
      }
    }
  }

  /**
    The state of an `nMost` buffer holding `contents`.  Until `max` entries
    have been observed they sit unsorted in order of arrival, followed by
    zero entries; from then on the buffer is sorted by descending count and
    its first `max` slots hold entries that no dropped entry outcounts.
   */
  ghost predicate BufferState(max: nat, seen: nat, contents: seq<MostData>,
                              observed: seq<MostData>, dropped: multiset<MostData>)
  {
    && |contents| == max + 1
    && seen <= max
    && (|observed| <= max ==>
          && seen == |observed|
          && contents[..seen] == observed
          && dropped == multiset{}
          && forall i | seen <= i <= max :: contents[i] == Zero)
    && (|observed| > max ==>
          && seen == max
          && SortedBy(contents, NegCount)
          && multiset(contents[..max]) + dropped == multiset(observed)
          && Dominates(contents[..max], dropped))
  }

  /** Writing into slot `seen` of a buffer with room keeps its state. */
  lemma FillStep(max: nat, seen: nat, contents: seq<MostData>,
                 observed: seq<MostData>, dropped: multiset<MostData>, x: MostData)
    requires BufferState(max, seen, contents, observed, dropped) && seen < max
    ensures BufferState(max, seen + 1, contents[seen := x], observed + [x], dropped)
  {
    assert contents[seen := x][..seen + 1] == contents[..seen] + [x];
  }

  /** Overwriting the spare slot of a full buffer and sorting keeps its state. */
  lemma OverflowStep(max: nat, contents: seq<MostData>, observed: seq<MostData>,
                     dropped: multiset<MostData>, x: MostData, after: seq<MostData>)
    requires BufferState(max, max, contents, observed, dropped)
    requires SortedBy(after, NegCount)
    requires multiset(after) == multiset(contents[max := x])
    ensures |after| == max + 1
    ensures BufferState(max, max, after, observed + [x], dropped + multiset{after[max]})
  {
    var top := contents[..max];
    assert contents[max := x] == top + [x];
    assert |after| == |multiset(after)| == max + 1;
    if |observed| <= max {
      assert top == observed;
    }
    assert multiset(top) + dropped == multiset(observed);
    TopStep(top, dropped, x, after);
    assert multiset(top + [x]) == multiset(top) + multiset{x};
    assert multiset(after) == multiset(top) + multiset{x};
    assert multiset(after[..max]) + multiset{after[max]} == multiset(top) + multiset{x};
    assert multiset(observed + [x]) == multiset(observed) + multiset{x};
    var kept, last := multiset(after[..max]), multiset{after[max]};
    assert kept + (dropped + last) == (kept + last) + dropped;
    assert kept + (dropped + last) == multiset(observed + [x]);
  }

  /** `nMost`: a buffer of `max + 1` entries; the ghost fields record every observed entry and the dropped ones. */
  class MostN {
    var max: nat
    var seen: nat
    var data: array<MostData>
    ghost var observed: seq<MostData>
    ghost var dropped: multiset<MostData>

    ghost predicate Valid()
      reads this, data
    {
      BufferState(max, seen, data[..], observed, dropped)
    }

    /** `newMostN(n)`: room for `n` entries plus the spare slot, all zero. */
    constructor (n: nat)
      ensures Valid() && fresh(data)
      ensures max == n && seen == 0 && observed == []
      ensures data.Length == n + 1
    {
      max := n;
      seen := 0;
      data := new MostData[n + 1](_ => Zero);
      observed := [];
      dropped := multiset{};
    }

    /**
      `observe`: while there is room, write the entry into slot `seen`;
      once full, overwrite the spare slot and sort the whole buffer.
     */
    method Observe(name: string, count: int)
      requires Valid()
      modifies this, data
      ensures Valid()
      ensures max == old(max) && data == old(data)
      ensures observed == old(observed) + [MostData(name, count)]
      ensures old(seen) < max ==> seen == old(seen) + 1 && data[..] == old(data[..])[old(seen) := MostData(name, count)]
      ensures old(seen) == max ==> seen == max && SortedBy(data[..], NegCount)
      ensures old(seen) == max ==> multiset(data[..]) == multiset(old(data[..])[max := MostData(name, count)])
    {
      var x := MostData(name, count);
      if seen < max {
        FillStep(max, seen, data[..], observed, dropped, x);
        data[seen] := x;
        seen := seen + 1;
        observed := observed + [x];
        return;
      }
      ghost var before := data[..];
      data[max] := x;
      assert data[..] == before[max := x];
      SortByKey(data, NegCount);
      OverflowStep(max, before, observed, dropped, x, data[..]);
      dropped := dropped + multiset{data[max]};
      observed := observed + [x];
    }
  }

  /** `d` is the entry of some key of `m`, with that key's count. */
  predicate IsEntry(m: map<string, int>, d: MostData)
  {
    d.name in m && m[d.name] == d.count
  }

  /** `obs` lists each key of `keys` once, as an entry of `m`. */
  ghost predicate ListsEntries(obs: seq<MostData>, m: map<string, int>, keys: set<string>)
  {
    && (forall i | 0 <= i < |obs| :: IsEntry(m, obs[i]) && obs[i].name in keys)
    && (forall i, j | 0 <= i < j < |obs| :: obs[i].name != obs[j].name)
    && (forall k | k in keys :: exists i | 0 <= i < |obs| :: obs[i].name == k)
  }

  /** With `m` holding no more than `n` keys: every entry once, unsorted, then zero entries. */
  ghost predicate PaddedEntries(most: seq<MostData>, m: map<string, int>)
  {
    && |m| <= |most|
    && ListsEntries(most[..|m|], m, m.Keys)
    && forall i | |m| <= i < |most| :: most[i] == Zero
  }

  /** Some entry of `most` is for key `k`. */
  predicate Listed(most: seq<MostData>, k: string)
  {
    exists i | 0 <= i < |most| :: most[i].name == k
  }

  /**
    `most` holds entries of `m` for distinct keys, by descending count, and
    no key left out has a larger count than any key kept.
   */
  ghost predicate TopEntries(most: seq<MostData>, m: map<string, int>)
  {
    && (forall i | 0 <= i < |most| :: IsEntry(m, most[i]))
    && (forall i, j | 0 <= i < j < |most| :: most[i].name != most[j].name)
    && (forall k, i | k in m && !Listed(most, k) && 0 <= i < |most| :: m[k] <= most[i].count)
    && NonIncreasing(most)
  }

  /** An element of a sequence whose keys are distinct occurs once. */
  lemma {:induction false} DistinctOnce(obs: seq<MostData>, d: MostData)
    requires forall i, j | 0 <= i < j < |obs| :: obs[i].name != obs[j].name
    ensures multiset(obs)[d] <= 1
  {
    if |obs| > 0 {
      var init := obs[..|obs| - 1];
      var last := obs[|obs| - 1];
      DistinctOnce(init, d);
      assert obs == init + [last];
      if last == d {
        assert d !in init by {
          forall i | 0 <= i < |init|
            ensures init[i] != d
          {
            assert init[i] == obs[i];
          }
        }
      }
    }
  }

  /** What the kept slots of a full buffer say about the map it observed. */
  lemma TopOfObserved(top: seq<MostData>, dropped: multiset<MostData>, obs: seq<MostData>, m: map<string, int>)
    requires ListsEntries(obs, m, m.Keys)
    requires SortedBy(top, NegCount)
    requires multiset(top) + dropped == multiset(obs)
    requires Dominates(top, dropped)
    ensures TopEntries(top, m)
  {
    forall i | 0 <= i < |top|
      ensures IsEntry(m, top[i])
    {
      assert top[i] in multiset(obs);
      var j :| 0 <= j < |obs| && obs[j] == top[i];
    }
    forall i, j | 0 <= i < j < |top|
      ensures top[i].name != top[j].name
    {
      if top[i].name == top[j].name {
        assert top[i] == top[j];
        TwoOccurrences(top, i, j);
        DistinctOnce(obs, top[i]);
        assert false;
      }
    }
    forall k, i | k in m && !Listed(top, k) && 0 <= i < |top|
      ensures m[k] <= top[i].count
    {
      var j :| 0 <= j < |obs| && obs[j].name == k;
      var d := obs[j];
      assert d in multiset(obs);
      assert d !in multiset(top);
      assert d in dropped;
    }
    forall i, j | 0 <= i < j < |top|
      ensures top[i].count >= top[j].count
    {
      assert NegCount(top[i]) <= NegCount(top[j]);
    }
  }

  /** Observing the entry of one more key extends the listing by that key. */
  lemma ListsEntriesAdd(obs: seq<MostData>, m: map<string, int>, keys: set<string>, k: string)
    requires ListsEntries(obs, m, keys) && k in m && k !in keys
    ensures ListsEntries(obs + [MostData(k, m[k])], m, keys + {k})
  {
    var obs' := obs + [MostData(k, m[k])];
    forall key | key in keys + {k}
      ensures exists i | 0 <= i < |obs'| :: obs'[i].name == key
    {
      if key == k {
        assert obs'[|obs|].name == key;
      } else {
        var i :| 0 <= i < |obs| && obs[i].name == key;
        assert obs'[i].name == key;
      }
    }
  }

  /** What the first `max` slots of a buffer that has observed all of `m` hold. */
  lemma FinalSlots(max: nat, seen: nat, contents: seq<MostData>, observed: seq<MostData>,
                   dropped: multiset<MostData>, m: map<string, int>)
    requires BufferState(max, seen, contents, observed, dropped)
    requires ListsEntries(observed, m, m.Keys) && |observed| == |m|
    ensures |m| <= max ==> PaddedEntries(contents[..max], m)
    ensures |m| > max ==> TopEntries(contents[..max], m)
  {
    if |m| > max {
      assert contents[..max] == contents[..max + 1][..max];
      assert SortedBy(contents[..max], NegCount);
      TopOfObserved(contents[..max], dropped, observed, m);
    } else {
      assert contents[..max][..|m|] == observed;
    }
  }

  /**
    `mostFrequentModules(n)`: observe every entry of the count map, in the
    unspecified order of Go's map iteration, and return the first `n`
    slots.  With at most `n` modules that is every entry, unsorted, then
    zero padding; with more it is `n` top-counted entries by descending
    count.
   */
  method MostFrequentModules(versionCount: map<string, int>, n: nat) returns (most: seq<MostData>)
    ensures |most| == n
    ensures |versionCount| <= n ==> PaddedEntries(most, versionCount)
    ensures |versionCount| > n ==> TopEntries(most, versionCount)
  {
    var buffer := new MostN(n);
    ObserveAll(buffer, versionCount);
    FinalSlots(buffer.max, buffer.seen, buffer.data[..], buffer.observed, buffer.dropped, versionCount);
    most := buffer.data[..n];
  }

  /** The `range` loop of `mostFrequentModules`: observe every entry of `m` once. */
  method ObserveAll(buffer: MostN, m: map<string, int>)
    requires buffer.Valid() && buffer.observed == []
    modifies buffer, buffer.data
    ensures buffer.Valid()
    ensures buffer.max == old(buffer.max) && buffer.data == old(buffer.data)
    ensures ListsEntries(buffer.observed, m, m.Keys) && |buffer.observed| == |m|
  {
    var remaining := m.Keys;
    ghost var done: set<string> := {};
    while remaining != {}
      invariant buffer.Valid()
      invariant buffer.max == old(buffer.max) && buffer.data == old(buffer.data)
      invariant remaining + done == m.Keys && remaining !! done
      invariant ListsEntries(buffer.observed, m, done)
      invariant |buffer.observed| == |done|
      decreases remaining
    {
      var k :| k in remaining;
      ListsEntriesAdd(buffer.observed, m, done, k);
      buffer.Observe(k, m[k]);
      done := done + {k};
      remaining := remaining - {k};
    }
  }

  // The per-module counts of `statsRun`.

  /** `p` is a package of module `mod` whose download outcome is `succeeded`. */
  predicate Selects(p: Package, mod: string, succeeded: bool)
  {
    p.stats.downloadSucceeded == succeeded && ModuleFromPackage(p.name) == mod
  }

  /** How many packages of `pkgs` `Selects` picks. */
  function CountOf(pkgs: seq<Package>, mod: string, succeeded: bool): (c: nat)
    ensures c <= |pkgs|
  {
    if |pkgs| == 0 then 0
    else CountOf(pkgs[..|pkgs| - 1], mod, succeeded) + (if Selects(pkgs[|pkgs| - 1], mod, succeeded) then 1 else 0)
  }

  /** How many packages of `pkgs` have download outcome `succeeded`. */
  function OutcomeCount(pkgs: seq<Package>, succeeded: bool): (c: nat)
    ensures c <= |pkgs|
  {
    if |pkgs| == 0 then 0
    else OutcomeCount(pkgs[..|pkgs| - 1], succeeded) + (if pkgs[|pkgs| - 1].stats.downloadSucceeded == succeeded then 1 else 0)
  }

  /** Every package either downloaded or did not. */
  lemma {:induction false} OutcomesPartition(pkgs: seq<Package>)
    ensures OutcomeCount(pkgs, true) + OutcomeCount(pkgs, false) == |pkgs|
  {
    if |pkgs| > 0 {
      OutcomesPartition(pkgs[..|pkgs| - 1]);
    }
  }

  /** The sum of the values of a count map. */
  ghost function MapTotal(m: map<string, int>): int
    decreases |m|
  {
    if m == map[] then 0
    else
      var k :| k in m;
      m[k] + MapTotal(m - {k})
  }

  /** The total can be taken apart at any key. */
  lemma {:induction false} MapTotalRemove(m: map<string, int>, k: string)
    requires k in m
    ensures MapTotal(m) == m[k] + MapTotal(m - {k})
    decreases |m|
  {
    var j :| j in m && MapTotal(m) == m[j] + MapTotal(m - {j});
    if j != k {
      MapTotalRemove(m - {j}, k);
      MapTotalRemove(m - {k}, j);
      assert m - {j} - {k} == m - {k} - {j};
    }
  }

  /** Go's `m[k] += 1`: a missing key counts from zero. */
  function Increment(m: map<string, int>, k: string): map<string, int>
  {
    m[k := (if k in m then m[k] else 0) + 1]
  }

  /** An increment adds one to the total. */
  lemma IncrementTotal(m: map<string, int>, k: string)
    ensures MapTotal(Increment(m, k)) == MapTotal(m) + 1
  {
    var m' := Increment(m, k);
    MapTotalRemove(m', k);
    if k in m {
      MapTotalRemove(m, k);
      assert m' - {k} == m - {k};
    } else {
      assert m' - {k} == m;
    }
  }

  /** `m` holds, for every module with at least one selected package, how many there are. */
  ghost predicate CountsOf(m: map<string, int>, pkgs: seq<Package>, succeeded: bool)
  {
    && (forall mod :: mod in m <==> CountOf(pkgs, mod, succeeded) > 0)
    && (forall mod | mod in m :: m[mod] == CountOf(pkgs, mod, succeeded))
  }

  /** Appending a package adds one to the count of its own module and outcome only. */
  lemma CountOfAppend(pkgs: seq<Package>, p: Package, mod: string, succeeded: bool)
    ensures CountOf(pkgs + [p], mod, succeeded) == CountOf(pkgs, mod, succeeded) + (if Selects(p, mod, succeeded) then 1 else 0)
  {
    assert (pkgs + [p])[..|pkgs|] == pkgs;
  }

  /** One more package bumps exactly its module in the map for its outcome. */
  lemma CountsStep(m: map<string, int>, pkgs: seq<Package>, p: Package, succeeded: bool)
    requires CountsOf(m, pkgs, succeeded)
    ensures CountsOf(if p.stats.downloadSucceeded == succeeded then Increment(m, ModuleFromPackage(p.name)) else m,
                     pkgs + [p], succeeded)
  {
    var m' := if p.stats.downloadSucceeded == succeeded then Increment(m, ModuleFromPackage(p.name)) else m;
    forall mod
      ensures mod in m' <==> CountOf(pkgs + [p], mod, succeeded) > 0
      ensures mod in m' ==> m'[mod] == CountOf(pkgs + [p], mod, succeeded)
    {
      CountOfAppend(pkgs, p, mod, succeeded);
    }
  }

  /**
    The `versionCount` bookkeeping of `statsRun`: for each package in
    arrival order, bump its module in the map for successful downloads or
    in the one for failed downloads.
   */
  method VersionCounts(all: seq<Package>) returns (succeeded: map<string, int>, failed: map<string, int>)
    ensures CountsOf(succeeded, all, true)
    ensures CountsOf(failed, all, false)
    ensures MapTotal(succeeded) == OutcomeCount(all, true)
    ensures MapTotal(failed) == OutcomeCount(all, false)
    ensures MapTotal(succeeded) + MapTotal(failed) == |all|
  {
    succeeded, failed := map[], map[];
    var i := 0;
    while i < |all|
      invariant 0 <= i <= |all|
      invariant CountsOf(succeeded, all[..i], true)
      invariant CountsOf(failed, all[..i], false)
      invariant MapTotal(succeeded) == OutcomeCount(all[..i], true)
      invariant MapTotal(failed) == OutcomeCount(all[..i], false)
    {
      var data := all[i];
      CountsStep(succeeded, all[..i], data, true);
      CountsStep(failed, all[..i], data, false);
      assert all[..i + 1] == all[..i] + [data];
      assert all[..i + 1][..i] == all[..i];
      var mod := ModuleFromPackage(data.name);
      if data.stats.downloadSucceeded {
        IncrementTotal(succeeded, mod);
        succeeded := Increment(succeeded, mod);
      } else {
        IncrementTotal(failed, mod);
        failed := Increment(failed, mod);
      }
      i := i + 1;
    }
    assert all[..i] == all;
    OutcomesPartition(all);
  }

  /** The names of the packages `Selects` picks. */
  ghost function SelectedNames(pkgs: seq<Package>, mod: string, succeeded: bool): set<string>
  {
    set i | 0 <= i < |pkgs| && Selects(pkgs[i], mod, succeeded) :: pkgs[i].name
  }

  /** With distinct names, the count is the number of selected names. */
  lemma {:induction false} CountOfDistinct(pkgs: seq<Package>, mod: string, succeeded: bool)
    requires forall i, j | 0 <= i < j < |pkgs| :: pkgs[i].name != pkgs[j].name
    ensures CountOf(pkgs, mod, succeeded) == |SelectedNames(pkgs, mod, succeeded)|
  {
    if |pkgs| > 0 {
      var init := pkgs[..|pkgs| - 1];
      var last := pkgs[|pkgs| - 1];
      CountOfDistinct(init, mod, succeeded);
      SelectedNamesSnoc(pkgs, mod, succeeded);
      var before := SelectedNames(init, mod, succeeded);
      forall i | 0 <= i < |init|
        ensures init[i].name != last.name
      {
        assert init[i] == pkgs[i];
      }
      assert last.name !in before;
    }
  }

  /** The selected names of a sequence are those of its front plus possibly its last. */
  lemma SelectedNamesSnoc(pkgs: seq<Package>, mod: string, succeeded: bool)
    requires |pkgs| > 0
    ensures var last := pkgs[|pkgs| - 1];
      SelectedNames(pkgs, mod, succeeded) ==
        SelectedNames(pkgs[..|pkgs| - 1], mod, succeeded) + (if Selects(last, mod, succeeded) then {last.name} else {})
  {
    var init := pkgs[..|pkgs| - 1];
    forall i | 0 <= i < |init|
      ensures init[i] == pkgs[i]
    {
    }
  }

  /** The keys of `m` whose records `Selects` picks. */
  ghost function SelectedKeys(m: map<string, Stats>, mod: string, succeeded: bool): set<string>
  {
    set k | k in m && Selects(Package(k, m[k]), mod, succeeded)
  }

  /** Counting over an enumeration of the store counts its selected keys. */
  lemma CountOfEnumeration(all: seq<Package>, m: map<string, Stats>, mod: string, succeeded: bool)
    requires Enumerates(all, m)
    ensures CountOf(all, mod, succeeded) == |SelectedKeys(m, mod, succeeded)|
  {
    CountOfDistinct(all, mod, succeeded);
    forall k | k in SelectedKeys(m, mod, succeeded)
      ensures k in SelectedNames(all, mod, succeeded)
    {
      var i :| 0 <= i < |all| && all[i].name == k;
      assert all[i] == Package(k, m[k]);
    }
    forall k | k in SelectedNames(all, mod, succeeded)
      ensures k in SelectedKeys(m, mod, succeeded)
    {
      var i :| 0 <= i < |all| && Selects(all[i], mod, succeeded) && all[i].name == k;
      assert all[i] == Package(k, m[k]);
    }
    assert SelectedNames(all, mod, succeeded) == SelectedKeys(m, mod, succeeded);
  }

  /**
    `statsRun`'s version counts over the store: module `mod` of outcome
    `succeeded` counts the store's keys of that module and outcome, and the
    two maps together count every package once.
   */
  method StatsRun(store: Store) returns (succeeded: map<string, int>, failed: map<string, int>)
    ensures forall mod | mod in succeeded :: succeeded[mod] == |SelectedKeys(store.packages, mod, true)|
    ensures forall mod | mod in failed :: failed[mod] == |SelectedKeys(store.packages, mod, false)|
    ensures forall mod :: mod in succeeded <==> |SelectedKeys(store.packages, mod, true)| > 0
    ensures forall mod :: mod in failed <==> |SelectedKeys(store.packages, mod, false)| > 0
    ensures MapTotal(succeeded) + MapTotal(failed) == |store.packages|
  {
    var all := store.AllPackages();
    succeeded, failed := VersionCounts(all);
    forall mod
      ensures CountOf(all, mod, true) == |SelectedKeys(store.packages, mod, true)|
      ensures CountOf(all, mod, false) == |SelectedKeys(store.packages, mod, false)|
    {
      CountOfEnumeration(all, store.packages, mod, true);
      CountOfEnumeration(all, store.packages, mod, false);
    }
  }

  // The index arithmetic of `percentiles`.

  function Id(x: int): int
  {
    x
  }

  /** Insert `x` into a sequence, before the first element not below it. */
  function Insert(x: int, s: seq<int>): (r: seq<int>)
    ensures |r| == |s| + 1
    ensures multiset(r) == multiset(s) + multiset{x}
  {
    if |s| == 0 || x <= s[0] then [x] + s
    else
      assert s == [s[0]] + s[1..];
      [s[0]] + Insert(x, s[1..])
  }

  /** The first element of a sorted sequence is its least. */
  lemma SortedHeadLeast(s: seq<int>, v: int)
    requires SortedBy(s, Id) && v in multiset(s)
    ensures s[0] <= v
  {
    var i :| 0 <= i < |s| && s[i] == v;
    assert Id(s[0]) <= Id(s[i]);
  }

  /** A head no larger than any element of a sorted tail gives a sorted sequence. */
  lemma ConsSorted(h: int, t: seq<int>)
    requires SortedBy(t, Id)
    requires forall j | 0 <= j < |t| :: h <= t[j]
    ensures SortedBy([h] + t, Id)
  {
    var r := [h] + t;
    forall i, j | 0 <= i < j < |r|
      ensures Id(r[i]) <= Id(r[j])
    {
      assert r[j] == t[j - 1];
      if i > 0 {
        assert r[i] == t[i - 1];
      }
    }
  }

  /** Inserting into a sorted sequence keeps it sorted. */
  lemma {:induction false} InsertSorted(x: int, s: seq<int>)
    requires SortedBy(s, Id)
    ensures SortedBy(Insert(x, s), Id)
  {
    if |s| == 0 || x <= s[0] {
      forall j | 0 <= j < |s|
        ensures x <= s[j]
      {
        assert Id(s[0]) <= Id(s[j]);
      }
      ConsSorted(x, s);
    } else {
      var tail := Insert(x, s[1..]);
      SortedTail(s);
      InsertSorted(x, s[1..]);
      forall j | 0 <= j < |tail|
        ensures s[0] <= tail[j]
      {
        assert tail[j] in multiset(s[1..]) + multiset{x};
        if tail[j] != x {
          assert tail[j] in multiset(s[1..]);
          var k :| 0 <= k < |s[1..]| && s[1..][k] == tail[j];
          assert Id(s[0]) <= Id(s[k + 1]);
        }
      }
      ConsSorted(s[0], tail);
    }
  }

  /** The sorted copy of `s`: what `sort.Float64s` leaves in the copied buffer. */
  function SortedCopy(s: seq<int>): (r: seq<int>)
    ensures |r| == |s|
    ensures multiset(r) == multiset(s)
  {
    if |s| == 0 then []
    else
      assert s == [s[0]] + s[1..];
      Insert(s[0], SortedCopy(s[1..]))
  }

  /** The sorted copy is sorted. */
  lemma {:induction false} SortedCopySorted(s: seq<int>)
    ensures SortedBy(SortedCopy(s), Id)
  {
    if |s| > 0 {
      SortedCopySorted(s[1..]);
      InsertSorted(s[0], SortedCopy(s[1..]));
    }
  }

  /** Two sorted arrangements of the same values are the same sequence. */
  lemma {:induction false} SortedUnique(a: seq<int>, b: seq<int>)
    requires SortedBy(a, Id) && SortedBy(b, Id)
    requires multiset(a) == multiset(b)
    ensures a == b
  {
    assert |a| == |multiset(a)| == |b|;
    if |a| > 0 {
      assert a[0] == b[0] && a[1..] == b[1..] by {
        SortedHeadsAgree(a, b);
        MultisetTail(a);
        MultisetTail(b);
        SortedTail(a);
        SortedTail(b);
        SortedUnique(a[1..], b[1..]);
      }
      assert a == [a[0]] + a[1..] && b == [b[0]] + b[1..];
    }
  }

  lemma SortedHeadsAgree(a: seq<int>, b: seq<int>)
    requires SortedBy(a, Id) && SortedBy(b, Id)
    requires multiset(a) == multiset(b) && |a| > 0 && |b| > 0
    ensures a[0] == b[0]
  {
    assert a[0] in multiset(a) && b[0] in multiset(b);
    SortedHeadLeast(a, b[0]);
    SortedHeadLeast(b, a[0]);
  }

  lemma SortedTail(s: seq<int>)
    requires SortedBy(s, Id) && |s| > 0
    ensures SortedBy(s[1..], Id)
  {
    forall i, j | 0 <= i < j < |s[1..]|
      ensures Id(s[1..][i]) <= Id(s[1..][j])
    {
      assert s[1..][i] == s[i + 1] && s[1..][j] == s[j + 1];
    }
  }

  /** The percentile index `(k * count) / 100` stays below `count`, and grows with `k`. */
  lemma PercentileIndex(k: int, l: int, count: int)
    requires 0 <= k <= l < 100 && count >= 1
    ensures 0 <= (k * count) / 100 <= (l * count) / 100 < count
  {
    assert 0 <= k * count <= l * count < 100 * count;
  }

  /** The percentile indices of `percentiles`, for at least one sample, are in range and in order. */
  lemma PercentileIndices(count: int)
    requires count >= 1
    ensures 0 <= count / 2 <= (75 * count) / 100 <= (90 * count) / 100 <= (95 * count) / 100 <= (99 * count) / 100 < count
  {
    assert count / 2 == (50 * count) / 100;
    PercentileIndex(50, 75, count);
    PercentileIndex(75, 90, count);
    PercentileIndex(90, 95, count);
    PercentileIndex(95, 99, count);
  }

  /** Reads of a sorted buffer at increasing indices come in increasing order. */
  lemma SortedReads(sorted: seq<int>, i: int, j: int, k: int, l: int, m: int)
    requires SortedBy(sorted, Id)
    requires 0 <= i <= j <= k <= l <= m < |sorted|
    ensures sorted[i] <= sorted[j] <= sorted[k] <= sorted[l] <= sorted[m] <= sorted[|sorted| - 1]
  {
    assert Id(sorted[i]) <= Id(sorted[j]);
    assert Id(sorted[j]) <= Id(sorted[k]);
    assert Id(sorted[k]) <= Id(sorted[l]);
    assert Id(sorted[l]) <= Id(sorted[m]);
    assert Id(sorted[m]) <= Id(sorted[|sorted| - 1]);
  }

  /** The last element of a sorted arrangement of `s` is an element of `s` and its maximum. */
  lemma SortedLastIsMax(sorted: seq<int>, s: seq<int>)
    requires SortedBy(sorted, Id) && multiset(sorted) == multiset(s) && |s| >= 1
    ensures |sorted| == |s|
    ensures sorted[|s| - 1] in s
    ensures forall i | 0 <= i < |s| :: s[i] <= sorted[|s| - 1]
  {
    assert |sorted| == |multiset(sorted)| == |s|;
    assert sorted[|s| - 1] in multiset(s);
    forall i | 0 <= i < |s|
      ensures s[i] <= sorted[|s| - 1]
    {
      assert s[i] in multiset(sorted);
      var k :| 0 <= k < |sorted| && sorted[k] == s[i];
      assert Id(sorted[k]) <= Id(sorted[|s| - 1]);
    }
  }

  /** `make` and `copy`: a fresh buffer with the same contents. */
  method CopyOf(data: array<int>) returns (tmp: array<int>)
    ensures fresh(tmp)
    ensures tmp[..] == data[..]
  {
    tmp := new int[data.Length];
    var i := 0;
    while i < data.Length
      invariant 0 <= i <= data.Length
      invariant tmp[..i] == data[..i]
    {
      tmp[i] := data[i];
      i := i + 1;
    }
  }

  /** The six values `percentiles` returns. */
  datatype Summary = Summary(median: int, pct75: int, pct90: int, pct95: int, pct99: int, max: int)

  /**
    The reads `percentiles` makes of its sorted buffer: the median, the
    75th, 90th, 95th and 99th percentile indices, and the last index.
   */
  function Summarize(sorted: seq<int>): Summary
    requires |sorted| >= 1
  {
    var count := |sorted|;
    PercentileIndices(count);
    Summary(sorted[count / 2], sorted[(75 * count) / 100], sorted[(90 * count) / 100],
            sorted[(95 * count) / 100], sorted[(99 * count) / 100], sorted[count - 1])
  }

  /**
    Read from the sorted copy of the samples, the six values are in
    non-decreasing order and the last is the largest sample.
   */
  lemma SummaryOfSamples(s: seq<int>)
    requires |s| >= 1
    ensures var r := Summarize(SortedCopy(s));
      && r.median <= r.pct75 <= r.pct90 <= r.pct95 <= r.pct99 <= r.max
      && r.max in s
      && forall i | 0 <= i < |s| :: s[i] <= r.max
  {
    var sorted := SortedCopy(s);
    var count := |s|;
    SortedCopySorted(s);
    PercentileIndices(count);
    SortedReads(sorted, count / 2, (75 * count) / 100, (90 * count) / 100, (95 * count) / 100, (99 * count) / 100);
    SortedLastIsMax(sorted, s);
  }

  /**
    `percentiles`: copy the samples, sort the copy, and read it as
    `Summarize` does.  An empty input makes the first read index out of
    range; that panic is the `None` outcome.
   */
  method Percentiles(data: array<int>) returns (summary: Option<Summary>)
    ensures summary.None? <==> data.Length == 0
    ensures summary.Some? ==> summary.value == Summarize(SortedCopy(data[..]))
    ensures summary.Some? ==>
      var r := summary.value;
      && r.median <= r.pct75 <= r.pct90 <= r.pct95 <= r.pct99 <= r.max
      && (forall i | 0 <= i < data.Length :: data[i] <= r.max)
      && r.max in data[..]
  {
    if data.Length == 0 {
      return None;
    }
    ghost var input := data[..];
    var tmp := CopyOf(data);
    SortByKey(tmp, Id);
    assert tmp[..] == SortedCopy(input) by {
      SortedCopySorted(input);
      SortedUnique(tmp[..], SortedCopy(input));
    }
    SummaryOfSamples(input);
    summary := Some(Summarize(tmp[..]));
    assert data[..] == input;
  }
}
