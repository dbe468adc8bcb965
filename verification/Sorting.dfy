/** sort.Slice: sorts an array in place by a comparison. Go promises no particular
  order of elements that compare equal, and neither does the contract here. */
module Sorting {

  /** A strict weak order, which is what sort.Slice asks of its comparison. */
  ghost predicate StrictWeak<T(!new)>(less: (T, T) -> bool) {
    && (forall x, y :: less(x, y) ==> !less(y, x))
    && (forall x, y, z :: less(x, z) ==> less(x, y) || less(y, z))
  }

  ghost predicate SortedBy<T>(s: seq<T>, less: (T, T) -> bool) {
    forall i, j :: 0 <= i < j < |s| ==> !less(s[j], s[i])
  }

  ghost predicate SortedPerm<T>(s: seq<T>, sorted: seq<T>, less: (T, T) -> bool) {
    multiset(s) == multiset(sorted) && SortedBy(sorted, less)
  }

  method SortSlice<T(!new)>(a: array<T>, less: (T, T) -> bool)
    requires StrictWeak(less)
    modifies a
    ensures SortedPerm(old(a[..]), a[..], less)
  {
    if a.Length < 2 {
      return;
    }
    for i := 1 to a.Length
      invariant multiset(a[..]) == multiset(old(a[..]))
      invariant SortedBy(a[..i], less)
    {
      Insert(a, i, less);
    }
    assert a[..] == a[..a.Length];
  }

  /** Moves a[n] down to its place in the sorted a[..n]. */
  method Insert<T(!new)>(a: array<T>, n: nat, less: (T, T) -> bool)
    requires StrictWeak(less) && n < a.Length && SortedBy(a[..n], less)
    modifies a
    ensures multiset(a[..]) == multiset(old(a[..]))
    ensures SortedBy(a[..n + 1], less)
  {
    var j := n;
    while j > 0 && less(a[j], a[j - 1])
      invariant 0 <= j <= n
      invariant multiset(a[..]) == multiset(old(a[..]))
      invariant SortedExcept(a[..n + 1], j, less)
    {
      ghost var was := a[..n + 1];
      Swap(a, j);
      assert a[..n + 1] == was[j - 1 := was[j]][j := was[j - 1]];
      j := j - 1;
    }
  }

  /** s is sorted apart from s[j], which belongs somewhere at or before j. */
  ghost predicate SortedExcept<T>(s: seq<T>, j: nat, less: (T, T) -> bool)
  {
    && (forall k, l :: 0 <= k < l < |s| && k != j && l != j ==> !less(s[l], s[k]))
    && (forall l :: j < l < |s| ==> !less(s[l], s[j]))
  }

  method Swap<T>(a: array<T>, j: nat)
    requires 0 < j < a.Length
    modifies a
    ensures a[..] == old(a[..])[j - 1 := old(a[j])][j := old(a[j - 1])]
    ensures multiset(a[..]) == multiset(old(a[..]))
  {
    a[j], a[j - 1] := a[j - 1], a[j];
  }

  /** No two different elements of s compare equal. */
  ghost predicate Total<T>(s: seq<T>, less: (T, T) -> bool) {
    forall i, j :: 0 <= i < |s| && 0 <= j < |s| && !less(s[i], s[j]) && !less(s[j], s[i]) ==> s[i] == s[j]
  }

  /** Sorting is canonical where no two different elements compare equal. */
  lemma {:induction false} SortedUnique<T>(s: seq<T>, t: seq<T>, less: (T, T) -> bool)
    requires multiset(s) == multiset(t) && SortedBy(s, less) && SortedBy(t, less) && Total(s, less)
    ensures s == t
  {
    assert |multiset(s)| == |s| && |multiset(t)| == |t|;
    if s != [] {
      HeadsEqual(s, t, less);
      assert s == [s[0]] + s[1..] && t == [t[0]] + t[1..];
      assert multiset(s[1..]) == multiset(s) - multiset{s[0]};
      assert multiset(t[1..]) == multiset(t) - multiset{t[0]};
      TailTotal(s, less);
      SortedUnique(s[1..], t[1..], less);
    }
  }

  lemma TailTotal<T>(s: seq<T>, less: (T, T) -> bool)
    requires s != [] && Total(s, less)
    ensures Total(s[1..], less)
  {
  }

  lemma HeadsEqual<T>(s: seq<T>, t: seq<T>, less: (T, T) -> bool)
    requires s != [] && t != [] && multiset(s) == multiset(t)
    requires SortedBy(s, less) && SortedBy(t, less) && Total(s, less)
    ensures s[0] == t[0]
  {
    assert s[0] in multiset(t) && t[0] in multiset(s);
    var i :| 0 <= i < |t| && t[i] == s[0];
    var j :| 0 <= j < |s| && s[j] == t[0];
    assert i == 0 || !less(t[i], t[0]);
    assert j == 0 || !less(s[j], s[0]);
  }
}
