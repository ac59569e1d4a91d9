/**
  The string primitives the repository relies on, for a one-character
  separator: Go's `strings.Index`, `strings.Split`, `strings.HasPrefix` and
  `strings.HasSuffix`, Python's `str.split` and `in`, and the code-point
  ordering Python's `sorted` uses on strings.
 */
module Strings {

  /** Number of occurrences of `c` in `s`. */
  function Occurrences(s: string, c: char): nat
  {
    if |s| == 0 then 0 else (if s[0] == c then 1 else 0) + Occurrences(s[1..], c)
  }

  lemma {:induction false} OccurrencesZero(s: string, c: char)
    ensures Occurrences(s, c) == 0 <==> c !in s
  {
    if |s| > 0 {
      OccurrencesZero(s[1..], c);
      assert s == [s[0]] + s[1..];
    }
  }

  /** `strings.Index(s, string(c))`: the first position of `c`, or -1. */
  function IndexOf(s: string, c: char): (i: int)
    ensures -1 <= i < |s|
    ensures i == -1 <==> c !in s
    ensures 0 <= i ==> s[i] == c && c !in s[..i]
  {
    if |s| == 0 then -1
    else if s[0] == c then 0
    else
      var j := IndexOf(s[1..], c);
      if j == -1 then -1
      else
        assert s[..j + 1] == [s[0]] + s[1..][..j];
        j + 1
  }

  lemma IndexOfJoined(a: string, c: char, b: string)
    requires c !in a
    ensures IndexOf(a + [c] + b, c) == |a|
  {
    var s := a + [c] + b;
    assert s[|a|] == c;
    assert s[..|a|] == a;
  }

  /** The inverse of `Split`: the parts glued back together with `c`. */
  function Join(parts: seq<string>, c: char): string
    requires |parts| >= 1
  {
    if |parts| == 1 then parts[0] else parts[0] + [c] + Join(parts[1..], c)
  }

  /**
    `strings.Split(s, string(c))` (and Python's `s.split(c)`): the maximal
    `c`-free pieces between occurrences of `c`; there is always at least one
    piece, and at least two when `c` occurs.  Defined one character at a
    time: a separator starts a new piece, any other character extends the
    first piece of the rest.
   */
  function Split(s: string, c: char): (parts: seq<string>)
    ensures |parts| >= 1
    ensures c in s ==> |parts| >= 2
    ensures forall i | 0 <= i < |parts| :: c !in parts[i]
    decreases |s|
  {
    if |s| == 0 then [""]
    else
      var rest := Split(s[1..], c);
      if s[0] == c then [""] + rest
      else [[s[0]] + rest[0]] + rest[1..]
  }

  /** Joining the pieces with the separator gives back the string. */
  lemma {:induction false} JoinSplit(s: string, c: char)
    ensures Join(Split(s, c), c) == s
    decreases |s|
  {
    if |s| > 0 {
      var rest := Split(s[1..], c);
      JoinSplit(s[1..], c);
      if s[0] == c {
        JoinCons("", rest, c);
      } else {
        JoinExtendFirst(s[0], rest, c);
      }
      assert s == [s[0]] + s[1..];
    }
  }

  lemma JoinCons(a: string, rest: seq<string>, c: char)
    requires |rest| >= 1
    ensures Join([a] + rest, c) == a + [c] + Join(rest, c)
  {
    assert ([a] + rest)[1..] == rest;
  }

  /** Putting a character in front of the first part puts it in front of the join. */
  lemma JoinExtendFirst(x: char, parts: seq<string>, c: char)
    requires |parts| >= 1
    ensures Join([[x] + parts[0]] + parts[1..], c) == [x] + Join(parts, c)
  {
    var q := [[x] + parts[0]] + parts[1..];
    if |parts| > 1 {
      assert q[1..] == parts[1..];
    }
  }

  /** Split yields one more piece than there are separators. */
  lemma {:induction false} SplitCount(s: string, c: char)
    ensures |Split(s, c)| == Occurrences(s, c) + 1
    decreases |s|
  {
    if |s| > 0 {
      SplitCount(s[1..], c);
    }
  }

  /** The first piece is the text before the first separator (all of `s` without one). */
  lemma {:induction false} SplitFirst(s: string, c: char)
    ensures Split(s, c)[0] == s[..if c in s then IndexOf(s, c) else |s|]
    decreases |s|
  {
    if |s| > 0 && s[0] != c {
      SplitFirst(s[1..], c);
      SplitCons(s[0], s[1..], c);
      assert s == [s[0]] + s[1..];
      assert c in s <==> c in s[1..];
      if c in s {
        assert s[..IndexOf(s, c)] == [s[0]] + s[1..][..IndexOf(s[1..], c)];
      } else {
        assert s == [s[0]] + s[1..];
      }
    }
  }

  /** Without a separator the only piece is the whole string. */
  lemma {:induction false} SplitNoSeparator(s: string, c: char)
    requires c !in s
    ensures Split(s, c) == [s]
    decreases |s|
  {
    if |s| > 0 {
      assert s[0] != c;
      assert c !in s[1..];
      SplitNoSeparator(s[1..], c);
      assert s == [s[0]] + s[1..];
    }
  }

  /**
    With a separator, the last piece is what follows the last separator:
    `s` is some prefix, then `c`, then the last piece.
   */
  lemma SplitLast(s: string, c: char)
    requires c in s
    ensures var parts := Split(s, c);
      var last := parts[|parts| - 1];
      |last| < |s| && s == s[..|s| - |last| - 1] + [c] + last
  {
    var parts := Split(s, c);
    var n := |parts|;
    JoinSplit(s, c);
    JoinLast(parts, c);
    PrefixOfConcat(s, Join(parts[..n - 1], c), parts[n - 1], c);
  }

  /** The last part follows the separator at the end of a join. */
  lemma {:induction false} JoinLast(parts: seq<string>, c: char)
    requires |parts| >= 2
    ensures Join(parts, c) == Join(parts[..|parts| - 1], c) + [c] + parts[|parts| - 1]
    decreases |parts|
  {
    if |parts| > 2 {
      var tail := parts[1..];
      JoinLast(tail, c);
      assert tail[..|tail| - 1] == parts[..|parts| - 1][1..];
      JoinCons(parts[0], tail[..|tail| - 1], c);
      assert [parts[0]] + tail[..|tail| - 1] == parts[..|parts| - 1];
    } else {
      assert parts[..1][0] == parts[0];
    }
  }

  /** When `s` is `p`, `c`, `last`, the prefix is the first `|s| - |last| - 1` characters. */
  lemma PrefixOfConcat(s: string, p: string, last: string, c: char)
    requires s == p + [c] + last
    ensures |last| < |s| && s[..|s| - |last| - 1] == p
  {
    assert s[..|p|] == p;
  }

  /** A string that ends in `c` and then `t` has `[c] + t` as a suffix. */
  lemma SuffixAfter(s: string, p: string, c: char, t: string)
    requires s == p + [c] + t
    ensures HasSuffix(s, [c] + t)
  {
    assert s == p + ([c] + t);
  }

  /** With a separator, `s` ends in the separator followed by the last piece. */
  lemma SplitLastSuffix(s: string, c: char)
    requires c in s
    ensures var parts := Split(s, c);
      HasSuffix(s, [c] + parts[|parts| - 1])
  {
    var parts := Split(s, c);
    var last := parts[|parts| - 1];
    SplitLast(s, c);
    SuffixAfter(s, s[..|s| - |last| - 1], c, last);
  }

  /** Splitting at a separator between two strings splits each side. */
  lemma {:induction false} SplitAppend(p: string, c: char, q: string)
    ensures Split(p + [c] + q, c) == Split(p, c) + Split(q, c)
    decreases |p|
  {
    var s := p + [c] + q;
    if |p| == 0 {
      assert s[0] == c && s[1..] == q;
    } else {
      assert s[0] == p[0] && s[1..] == p[1..] + [c] + q;
      SplitAppend(p[1..], c, q);
      if p[0] != c {
        ExtendFirstAppend(p[0], Split(p[1..], c), Split(q, c));
      }
    }
  }

  /** One step of `Split`, for a string given as its first character and the rest. */
  lemma SplitCons(x: char, r: string, c: char)
    ensures var rest := Split(r, c);
      Split([x] + r, c) == if x == c then [""] + rest else [[x] + rest[0]] + rest[1..]
  {
    assert ([x] + r)[1..] == r;
  }

  lemma ExtendFirstAppend(x: char, left: seq<string>, right: seq<string>)
    requires |left| >= 1
    ensures [[x] + (left + right)[0]] + (left + right)[1..] == ([[x] + left[0]] + left[1..]) + right
  {
    assert (left + right)[1..] == left[1..] + right;
  }

  /** A suffix of `s` starts with a character of `s`. */
  lemma SuffixHead(s: string, t: string)
    ensures HasSuffix(s, t) && |t| > 0 ==> t[0] in s
  {
    if HasSuffix(s, t) && |t| > 0 {
      assert s[|s| - |t|] == t[0];
    }
  }

  /** Splitting undoes joining parts that do not contain the separator. */
  lemma {:induction false} SplitJoin(parts: seq<string>, c: char)
    requires |parts| >= 1
    requires forall i | 0 <= i < |parts| :: c !in parts[i]
    ensures Split(Join(parts, c), c) == parts
    decreases |parts|
  {
    SplitNoSeparator(parts[0], c);
    if |parts| > 1 {
      SplitJoin(parts[1..], c);
      SplitAppend(parts[0], c, Join(parts[1..], c));
      assert parts == [parts[0]] + parts[1..];
    }
  }

  /** `strings.HasPrefix`. */
  predicate HasPrefix(s: string, prefix: string)
  {
    |prefix| <= |s| && s[..|prefix|] == prefix
  }

  /** `strings.HasSuffix`. */
  predicate HasSuffix(s: string, suffix: string)
  {
    |suffix| <= |s| && s[|s| - |suffix|..] == suffix
  }

  /** Python's `sub in s` on strings. */
  predicate Contains(s: string, sub: string)
    decreases |s|
  {
    HasPrefix(s, sub) || (|s| > 0 && Contains(s[1..], sub))
  }

  /** Lexicographic order on code points, as Python compares `str` values. */
  predicate LessEq(a: string, b: string)
  {
    |a| == 0 || (|b| > 0 && (a[0] < b[0] || (a[0] == b[0] && LessEq(a[1..], b[1..]))))
  }

  lemma {:induction false} LessEqReflexive(a: string)
    ensures LessEq(a, a)
  {
    if |a| > 0 {
      LessEqReflexive(a[1..]);
    }
  }

  lemma {:induction false} LessEqTotal(a: string, b: string)
    ensures LessEq(a, b) || LessEq(b, a)
  {
    if |a| > 0 && |b| > 0 && a[0] == b[0] {
      LessEqTotal(a[1..], b[1..]);
    }
  }

  lemma {:induction false} LessEqAntisymmetric(a: string, b: string)
    requires LessEq(a, b) && LessEq(b, a)
    ensures a == b
  {
    if |a| > 0 && |b| > 0 {
      LessEqAntisymmetric(a[1..], b[1..]);
      assert a == [a[0]] + a[1..] && b == [b[0]] + b[1..];
    }
  }

  lemma {:induction false} LessEqTransitive(a: string, b: string, d: string)
    requires LessEq(a, b) && LessEq(b, d)
    ensures LessEq(a, d)
  {
    if |a| > 0 && |b| > 0 && |d| > 0 && a[0] == b[0] && b[0] == d[0] {
      LessEqTransitive(a[1..], b[1..], d[1..]);
    }
  }
}
