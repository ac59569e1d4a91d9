/**
  The in-place sorts the tabulation relies on: Go's `sort.Sort` over a
  `sort.Interface` whose `Less(i, j)` compares a key of the two elements,
  and `sort.Float64s`.  Neither is stable, so the contract promises only
  an order and a permutation; the insertion sort below is one sort that
  keeps that contract.
 */
module Sorting {

  /** The elements are in non-decreasing order of `key`. */
  ghost predicate SortedBy<T>(s: seq<T>, key: T -> int)
  {
    forall i, j | 0 <= i < j < |s| :: key(s[i]) <= key(s[j])
  }

  /** Dropping the head of a sequence removes one occurrence of it from its multiset. */
  lemma MultisetTail<T>(s: seq<T>)
    requires |s| > 0
    ensures multiset(s[1..]) == multiset(s) - multiset{s[0]}
  {
    assert s == [s[0]] + s[1..];
  }

  /** `Swap(i, j)` of a `sort.Interface`: exchange two slots, leave the rest. */
  method Swap<T>(a: array<T>, i: int, j: int)
    requires 0 <= i < a.Length && 0 <= j < a.Length
    modifies a
    ensures a[i] == old(a[j]) && a[j] == old(a[i])
    ensures forall m | 0 <= m < a.Length && m != i && m != j :: a[m] == old(a[m])
    ensures multiset(a[..]) == old(multiset(a[..]))
  {
    a[i], a[j] := a[j], a[i];
  }

  /** Sort `a` in place into non-decreasing order of `key`. */
  method SortByKey<T>(a: array<T>, key: T -> int)
    modifies a
    ensures SortedBy(a[..], key)
    ensures multiset(a[..]) == old(multiset(a[..]))
  {
    var i := 0;
    while i < a.Length
      invariant 0 <= i <= a.Length
      invariant forall k, l | 0 <= k < l < i :: key(a[k]) <= key(a[l])
      invariant multiset(a[..]) == old(multiset(a[..]))
    {
      var j := i;
      while j > 0 && key(a[j - 1]) > key(a[j])
        invariant 0 <= j <= i
        invariant forall k, l | 0 <= k < l <= i && k != j && l != j :: key(a[k]) <= key(a[l])
        invariant forall l | j < l <= i :: key(a[j]) < key(a[l])
        invariant multiset(a[..]) == old(multiset(a[..]))
      {
        Swap(a, j - 1, j);
        j := j - 1;
      }
      i := i + 1;
    }
  }
}
