/**
  The script generator of python/gen_rescan.py: from a snapshot of the
  store it writes a shell script that reruns the builder container for
  every record that failed to download (`rescan`), or that downloaded but
  failed to build (`rebuild`), in sorted name order, 30 seconds apart.
  Printing is modelled as the sequence of lines printed, together with the
  exception, if any, that ends the script.
 */
module GenRescan {
  import opened Wrappers
  import opened Strings
  import opened PkgData
  import opened Wrapper
  import opened Sorting

  // `sorted` over the record names: code-point order, as `LessEq` states it.

  /** The names are in non-decreasing order. */
  predicate SortedNames(s: seq<string>)
  {
    forall i, j | 0 <= i < j < |s| :: LessEq(s[i], s[j])
  }

  /** Insert `x` into sorted `s` before the first element it does not exceed. */
  function InsertName(x: string, s: seq<string>): (r: seq<string>)
    ensures |r| == |s| + 1
    ensures multiset(r) == multiset(s) + multiset{x}
  {
    if |s| == 0 || LessEq(x, s[0]) then [x] + s
    else
      assert s == [s[0]] + s[1..];
      [s[0]] + InsertName(x, s[1..])
  }

  /** A head no larger than any element of a sorted tail gives a sorted sequence. */
  lemma ConsSortedNames(h: string, t: seq<string>)
    requires SortedNames(t)
    requires forall j | 0 <= j < |t| :: LessEq(h, t[j])
    ensures SortedNames([h] + t)
  {
    var r := [h] + t;
    forall i, j | 0 <= i < j < |r|
      ensures LessEq(r[i], r[j])
    {
      assert r[j] == t[j - 1];
      if i > 0 {
        assert r[i] == t[i - 1];
      }
    }
  }

  lemma SortedNamesTail(s: seq<string>)
    requires SortedNames(s) && |s| > 0
    ensures SortedNames(s[1..])
  {
    forall i, j | 0 <= i < j < |s[1..]|
      ensures LessEq(s[1..][i], s[1..][j])
    {
      assert s[1..][i] == s[i + 1] && s[1..][j] == s[j + 1];
    }
  }

  /** The first name of a sorted sequence is its least. */
  lemma SortedNamesHeadLeast(s: seq<string>, v: string)
    requires SortedNames(s) && v in multiset(s)
    ensures LessEq(s[0], v)
  {
    var i :| 0 <= i < |s| && s[i] == v;
    if i == 0 {
      LessEqReflexive(v);
    }
  }

  /** Inserting into a sorted sequence keeps it sorted. */
  lemma {:induction false} InsertNameSorted(x: string, s: seq<string>)
    requires SortedNames(s)
    ensures SortedNames(InsertName(x, s))
  {
    if |s| == 0 || LessEq(x, s[0]) {
      forall j | 0 <= j < |s|
        ensures LessEq(x, s[j])
      {
        if j > 0 {
          LessEqTransitive(x, s[0], s[j]);
        }
      }
      ConsSortedNames(x, s);
    } else {
      LessEqTotal(x, s[0]);
      SortedNamesTail(s);
      InsertNameSorted(x, s[1..]);
      var t := InsertName(x, s[1..]);
      forall j | 0 <= j < |t|
        ensures LessEq(s[0], t[j])
      {
        assert t[j] in multiset(t);
        if t[j] != x {
          assert t[j] in multiset(s[1..]);
          var k :| 0 <= k < |s[1..]| && s[1..][k] == t[j];
          assert s[k + 1] == t[j];
        }
      }
      ConsSortedNames(s[0], t);
    }
  }

  /** There is exactly one sorted arrangement of a multiset of names. */
  lemma {:induction false} SortedNamesUnique(a: seq<string>, b: seq<string>)
    requires SortedNames(a) && SortedNames(b)
    requires multiset(a) == multiset(b)
    ensures a == b
  {
    assert |a| == |multiset(a)| == |b|;
    if |a| > 0 {
      assert a[0] == b[0] && a[1..] == b[1..] by {
        SortedNamesHeadsAgree(a, b);
        MultisetTail(a);
        MultisetTail(b);
        SortedNamesTail(a);
        SortedNamesTail(b);
        SortedNamesUnique(a[1..], b[1..]);
      }
      assert a == [a[0]] + a[1..] && b == [b[0]] + b[1..];
    }
  }

  lemma SortedNamesHeadsAgree(a: seq<string>, b: seq<string>)
    requires SortedNames(a) && SortedNames(b)
    requires multiset(a) == multiset(b) && |a| > 0 && |b| > 0
    ensures a[0] == b[0]
  {
    assert a[0] in multiset(a) && b[0] in multiset(b);
    SortedNamesHeadLeast(a, b[0]);
    SortedNamesHeadLeast(b, a[0]);
    LessEqAntisymmetric(a[0], b[0]);
  }

  /** `sorted` over a set of names: each name once, in order. */
  method SortSet(names: set<string>) returns (sorted: seq<string>)
    ensures SortedNames(sorted)
    ensures multiset(sorted) == multiset(names)
  {
    sorted := [];
    var remaining := names;
    while remaining != {}
      invariant remaining <= names
      invariant SortedNames(sorted)
      invariant multiset(sorted) == multiset(names - remaining)
      decreases |remaining|
    {
      var k :| k in remaining;
      InsertNameSorted(k, sorted);
      sorted := InsertName(k, sorted);
      assert names - (remaining - {k}) == (names - remaining) + {k};
      remaining := remaining - {k};
    }
    assert names - remaining == names;
  }

  /** Every enumeration of the keys in sorted order is the same, so this one is the order the script uses. */
  ghost function Ordered(names: set<string>): (r: seq<string>)
    ensures SortedNames(r) && multiset(r) == multiset(names)
    ensures forall i | 0 <= i < |r| :: r[i] in names
    decreases |names|
  {
    if names == {} then []
    else
      var y :| y in names;
      var rest := Ordered(names - {y});
      InsertNameSorted(y, rest);
      assert names == (names - {y}) + {y};
      var r := InsertName(y, rest);
      assert forall i | 0 <= i < |r| :: r[i] in multiset(r);
      r
  }

  /** Sorting the names of a set yields `Ordered` of that set. */
  lemma SortSetIsOrdered(names: set<string>, sorted: seq<string>)
    requires SortedNames(sorted) && multiset(sorted) == multiset(names)
    ensures sorted == Ordered(names)
  {
    SortedNamesUnique(sorted, Ordered(names));
  }

  // The two sub-commands.

  datatype Command = Rescan | Rebuild

  /** `rescan` picks failed downloads; `rebuild` picks downloads whose builds failed. */
  predicate Selected(cmd: Command, stats: Stats)
  {
    match cmd
    case Rescan => !stats.downloadSucceeded
    case Rebuild => stats.downloadSucceeded && !stats.allBuildsPass
  }

  /** A printed line: a comment naming a record, a container run, a pause, or the complaint about a sub-command. */
  datatype Line = Comment(name: string) | Docker(mod: string, version: string) | Sleep | Unknown(command: string)

  /** The text `print` writes for a line. */
  function Render(line: Line): string
  {
    match line
    case Comment(name) => "# " + name
    case Docker(mod, version) =>
      "docker run --rm --env-file /tmp/go_data/env gobuilder:manual " + mod + " " + version
        + " http://192.168.1.2:8080/api/report"
    case Sleep => "sleep 30"
    case Unknown(command) => "Unknown sub-command " + command
  }

  /** The lines printed for record `name` whose name splits into `mod` and `version`. */
  function Block(cmd: Command, name: string, mod: string, version: string): (lines: seq<Line>)
    ensures |lines| == BlockSize(cmd)
    ensures lines[|lines| - 1] == Sleep && lines[|lines| - 2] == Docker(mod, version)
    ensures cmd == Rebuild ==> lines[0] == Comment(name)
  {
    match cmd
    case Rescan => [Docker(mod, version), Sleep]
    case Rebuild => [Comment(name), Docker(mod, version), Sleep]
  }

  function BlockSize(cmd: Command): nat
  {
    match cmd
    case Rescan => 2
    case Rebuild => 3
  }

  /** Why a script run stops early. */
  datatype Failure =
    | UnpackError(name: string, pieces: nat)   // `mod, version = name.split('@')` with other than two pieces
    | MissingArgument(index: nat)              // `args[index]` past the end of the arguments

  /** What a run printed, and the exception that ended it, if any. */
  datatype Output = Output(lines: seq<Line>, failure: Option<Failure>)

  /** The names of `keys` a sub-command picks, in order. */
  function Picked(cmd: Command, keys: seq<string>, data: map<string, Stats>): (r: seq<string>)
    requires forall i | 0 <= i < |keys| :: keys[i] in data
    ensures forall i | 0 <= i < |r| :: r[i] in data && Selected(cmd, data[r[i]])
  {
    if |keys| == 0 then []
    else
      var name := keys[|keys| - 1];
      Picked(cmd, keys[..|keys| - 1], data) + (if Selected(cmd, data[name]) then [name] else [])
  }

  /**
    The printing loop over the picked names: each name is split into module
    and version and its block printed; a name that does not split in two
    ends the run.
   */
  function Emit(cmd: Command, picked: seq<string>): (out: Output)
  {
    if |picked| == 0 then Output([], None)
    else
      var prev := Emit(cmd, picked[..|picked| - 1]);
      var name := picked[|picked| - 1];
      if prev.failure.Some? then prev
      else
        var parts := Split(name, '@');
        if |parts| != 2 then prev.(failure := Some(UnpackError(name, |parts|)))
        else prev.(lines := prev.lines + Block(cmd, name, parts[0], parts[1]))
  }

  /** The run of one sub-command over the names `keys`, in that order. */
  function ScriptOf(cmd: Command, keys: seq<string>, data: map<string, Stats>): Output
    requires forall i | 0 <= i < |keys| :: keys[i] in data
  {
    Emit(cmd, Picked(cmd, keys, data))
  }

  /** The name splits into a module and a version. */
  predicate Designator(name: string)
  {
    |Split(name, '@')| == 2
  }

  predicate AllDesignators(picked: seq<string>)
  {
    forall i | 0 <= i < |picked| :: Designator(picked[i])
  }

  /** The blocks printed for picked names that all split. */
  function Blocks(cmd: Command, picked: seq<string>): (lines: seq<Line>)
    requires AllDesignators(picked)
    ensures |lines| == BlockSize(cmd) * |picked|
  {
    if |picked| == 0 then []
    else
      var name := picked[|picked| - 1];
      assert Designator(name);
      var parts := Split(name, '@');
      var init := picked[..|picked| - 1];
      assert AllDesignators(init);
      Blocks(cmd, init) + Block(cmd, name, parts[0], parts[1])
  }

  /** The first picked name that does not split in two. */
  function FirstBad(picked: seq<string>): (n: nat)
    requires !AllDesignators(picked)
    ensures n < |picked| && !Designator(picked[n]) && AllDesignators(picked[..n])
  {
    var init := picked[..|picked| - 1];
    if !AllDesignators(init) then
      var n := FirstBad(init);
      assert picked[..n] == init[..n];
      n
    else
      assert init == picked[..|picked| - 1];
      |picked| - 1
  }

  /**
    A run completes exactly when every picked name splits in two, and then
    prints one block per picked name; otherwise it stops at the first picked
    name that does not split, having printed the blocks before it.
   */
  lemma {:induction false} EmitMeaning(cmd: Command, picked: seq<string>)
    ensures AllDesignators(picked) ==> Emit(cmd, picked) == Output(Blocks(cmd, picked), None)
    ensures !AllDesignators(picked) ==>
      var n := FirstBad(picked);
      Emit(cmd, picked) == Output(Blocks(cmd, picked[..n]), Some(UnpackError(picked[n], |Split(picked[n], '@')|)))
  {
    if |picked| > 0 {
      var init := picked[..|picked| - 1];
      EmitMeaning(cmd, init);
      if !AllDesignators(init) {
        var n := FirstBad(init);
        assert picked[..n] == init[..n];
      } else if !AllDesignators(picked) {
        assert picked[..|init|] == init;
      }
    }
  }

  /**
    Over the sorted names of a snapshot, a sub-command picks exactly the
    records it selects, in sorted order.
   */
  lemma SnapshotPicks(cmd: Command, data: map<string, Stats>, name: string)
    ensures var picked := Picked(cmd, Ordered(data.Keys), data);
      && SortedNames(picked)
      && (name in picked <==> name in data && Selected(cmd, data[name]))
  {
    var keys := Ordered(data.Keys);
    PickedSorted(cmd, keys, data);
    PickedMembers(cmd, keys, data, name);
    if name in data {
      assert name in multiset(keys);
    }
  }

  /** Once a run has stopped, more names change nothing. */
  lemma {:induction false} FailureSticks(cmd: Command, p: seq<string>, q: seq<string>)
    requires Emit(cmd, p).failure.Some?
    ensures Emit(cmd, p + q) == Emit(cmd, p)
  {
    if |q| == 0 {
      assert p + q == p;
    } else {
      assert (p + q)[..|p + q| - 1] == p + q[..|q| - 1];
      FailureSticks(cmd, p, q[..|q| - 1]);
    }
  }

  /** A picked name that splits rebuilds the same record key in the container. */
  lemma DesignatorRejoins(name: string)
    requires Designator(name)
    ensures var parts := Split(name, '@');
      PkgAndVersion(parts[0], parts[1]) == name
  {
    var parts := Split(name, '@');
    JoinSplit(name, '@');
    JoinCons(parts[0], [parts[1]], '@');
  }

  /** A sub-command over `Ordered(data.Keys)` picks exactly the records it selects, in sorted order. */
  lemma {:induction false} PickedMembers(cmd: Command, keys: seq<string>, data: map<string, Stats>, name: string)
    requires forall i | 0 <= i < |keys| :: keys[i] in data
    ensures name in Picked(cmd, keys, data) <==> name in keys && Selected(cmd, data[name])
  {
    if |keys| > 0 {
      PickedMembers(cmd, keys[..|keys| - 1], data, name);
      assert keys == keys[..|keys| - 1] + [keys[|keys| - 1]];
    }
  }

  /** The picked names keep the order of the names they come from. */
  lemma {:induction false} PickedSorted(cmd: Command, keys: seq<string>, data: map<string, Stats>)
    requires forall i | 0 <= i < |keys| :: keys[i] in data
    requires SortedNames(keys)
    ensures SortedNames(Picked(cmd, keys, data))
  {
    if |keys| > 0 {
      var init := keys[..|keys| - 1];
      var name := keys[|keys| - 1];
      assert SortedNames(init);
      PickedSorted(cmd, init, data);
      var before := Picked(cmd, init, data);
      forall i | 0 <= i < |before|
        ensures LessEq(before[i], name)
      {
        PickedMembers(cmd, init, data, before[i]);
      }
    }
  }

  /** `rescan` and `rebuild` over a snapshot: the run over its names in sorted order. */
  method RunScript(cmd: Command, data: map<string, Stats>) returns (out: Output)
    ensures out == ScriptOf(cmd, Ordered(data.Keys), data)
  {
    var keys := SortSet(data.Keys);
    SortSetIsOrdered(data.Keys, keys);
    out := ScriptOf(cmd, keys, data);
  }

  /** The sub-command table of `main`. */
  function Lookup(name: string): (cmd: Option<Command>)
    ensures cmd == Some(Rescan) <==> name == "rescan"
    ensures cmd == Some(Rebuild) <==> name == "rebuild"
    ensures cmd.None? <==> name != "rescan" && name != "rebuild"
  {
    if name == "rescan" then Some(Rescan)
    else if name == "rebuild" then Some(Rebuild)
    else None
  }

  /**
    `main`: dispatch on the first argument and run the sub-command over the
    snapshot named by the second; an unknown sub-command prints one line.
    `load` stands for reading and decoding the snapshot file.
   */
  method Dispatch(args: seq<string>, load: string -> map<string, Stats>) returns (out: Output)
    ensures |args| == 0 ==> out == Output([], Some(MissingArgument(0)))
    ensures |args| >= 1 && Lookup(args[0]).None? ==> out == Output([Unknown(args[0])], None)
    ensures |args| == 1 && Lookup(args[0]).Some? ==> out == Output([], Some(MissingArgument(1)))
    ensures |args| >= 2 && Lookup(args[0]).Some? ==>
      out == ScriptOf(Lookup(args[0]).value, Ordered(load(args[1]).Keys), load(args[1]))
  {
    if |args| == 0 {
      return Output([], Some(MissingArgument(0)));
    }
    var cmd := Lookup(args[0]);
    if cmd.None? {
      return Output([Unknown(args[0])], None);
    }
    if |args| < 2 {
      return Output([], Some(MissingArgument(1)));
    }
    var data := load(args[1]);
    out := RunScript(cmd.value, data);
  }
}
