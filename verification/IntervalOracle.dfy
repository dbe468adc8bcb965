/** The second algorithm that the tests hold against the collapser: sorted, merged address
  intervals, their count, and a direct check that a list is fully collapsed. */
module IntervalOracle {
  import opened Wrappers
  import opened Ipv4
  import opened Sorting
  import opened Blocks
  import opened Collapse

  /** An inclusive range of addresses. */
  datatype Interval = Interval(start: nat, end: nat)

  function PrefixToInterval(p: Prefix): Interval {
    Interval(First(p), First(p) + Size(p.bits) - 1)
  }

  predicate IntervalLess(a: Interval, b: Interval) {
    if a.start != b.start then a.start < b.start else a.end < b.end
  }

  ghost predicate Within(x: int, iv: Interval) {
    iv.start <= x <= iv.end
  }

  ghost predicate HasPoint(ivs: seq<Interval>, x: int) {
    exists i :: 0 <= i < |ivs| && Within(x, ivs[i])
  }

  /** Non-empty, in order, and with at least one missing address between neighbours. */
  ghost predicate NonTouching(ivs: seq<Interval>) {
    && (forall i :: 0 <= i < |ivs| ==> ivs[i].start <= ivs[i].end)
    && (forall i, j :: 0 <= i < j < |ivs| ==> ivs[i].end + 1 < ivs[j].start)
  }

  /** The intervals are exact for the prefixes. */
  ghost predicate Exact(ivs: seq<Interval>, prefs: seq<Prefix>) {
    forall x: int :: HasPoint(ivs, x) <==> 0 <= x < 0x1_0000_0000 && Covers(prefs, x)
  }

  /** prefixesToMergedIntervals: sort by start, then extend the last interval or append. */
  method PrefixesToMergedIntervals(prefs: seq<Prefix>) returns (merged: seq<Interval>)
    ensures NonTouching(merged) && Exact(merged, prefs)
  {
    if |prefs| == 0 {
      return [];
    }
    var intervals := new Interval[|prefs|](_ => Interval(0, 0));
    for i := 0 to |prefs|
      invariant forall k :: 0 <= k < i ==> intervals[k] == PrefixToInterval(prefs[k])
    {
      intervals[i] := PrefixToInterval(prefs[i]);
    }
    ghost var unsorted := intervals[..];
    SortSlice(intervals, IntervalLess);
    ghost var sorted := intervals[..];
    PermPoints(unsorted, sorted, prefs);
    merged := [intervals[0]];
    for i := 1 to intervals.Length
      invariant intervals[..] == sorted
      invariant merged != [] && NonTouching(merged)
      invariant merged[|merged| - 1].start <= sorted[i - 1].start
      invariant forall x: int :: HasPoint(merged, x) <==> HasPoint(sorted[..i], x)
    {
      var iv, last := intervals[i], merged[|merged| - 1];
      assert !IntervalLess(sorted[i], sorted[i - 1]);
      assert sorted[..i + 1] == sorted[..i] + [iv];
      AbsorbPoints(merged, iv);
      HasPointConcat(sorted[..i], [iv]);
      if iv.start <= last.end + 1 {
        if iv.end > last.end {
          merged := merged[|merged| - 1 := last.(end := iv.end)];
        }
        continue;
      }
      merged := merged + [iv];
    }
    assert sorted[..intervals.Length] == sorted;
  }

  /** One turn of the merging loop. */
  ghost function Absorb(merged: seq<Interval>, iv: Interval): seq<Interval>
    requires merged != []
  {
    var last := merged[|merged| - 1];
    if iv.start <= last.end + 1 then
      if iv.end > last.end then merged[|merged| - 1 := last.(end := iv.end)] else merged
    else merged + [iv]
  }

  lemma AbsorbPoints(merged: seq<Interval>, iv: Interval)
    requires merged != [] && NonTouching(merged) && iv.start <= iv.end
    requires merged[|merged| - 1].start <= iv.start
    ensures NonTouching(Absorb(merged, iv))
    ensures forall x: int :: HasPoint(Absorb(merged, iv), x) <==> HasPoint(merged, x) || HasPoint([iv], x)
  {
    var n, last, next := |merged| - 1, merged[|merged| - 1], Absorb(merged, iv);
    forall x: int
      ensures HasPoint(next, x) <==> HasPoint(merged, x) || HasPoint([iv], x)
    {
      assert HasPoint([iv], x) <==> Within(x, [iv][0]);
      assert Within(x, next[|next| - 1]) ==> Within(x, last) || Within(x, iv);
      if HasPoint(merged, x) {
        var i :| 0 <= i < |merged| && Within(x, merged[i]);
        assert Within(x, next[i]);
      }
      assert Within(x, iv) ==> Within(x, next[|next| - 1]);
      if HasPoint(next, x) {
        var i :| 0 <= i < |next| && Within(x, next[i]);
        assert i < n ==> Within(x, merged[i]);
        assert Within(x, last) ==> Within(x, merged[n]);
      }
    }
  }

  lemma HasPointConcat(a: seq<Interval>, b: seq<Interval>)
    ensures forall x: int :: HasPoint(a + b, x) <==> HasPoint(a, x) || HasPoint(b, x)
  {
    forall x: int
      ensures HasPoint(a + b, x) <==> HasPoint(a, x) || HasPoint(b, x)
    {
      if HasPoint(a, x) {
        var i :| 0 <= i < |a| && Within(x, a[i]);
        assert Within(x, (a + b)[i]);
      }
      if HasPoint(b, x) {
        var i :| 0 <= i < |b| && Within(x, b[i]);
        assert Within(x, (a + b)[|a| + i]);
      }
      if HasPoint(a + b, x) {
        var i :| 0 <= i < |a + b| && Within(x, (a + b)[i]);
        assert if i < |a| then Within(x, a[i]) else Within(x, b[i - |a|]);
      }
    }
  }

  lemma PermPoints(unsorted: seq<Interval>, sorted: seq<Interval>, prefs: seq<Prefix>)
    requires |unsorted| == |prefs| && forall k :: 0 <= k < |prefs| ==> unsorted[k] == PrefixToInterval(prefs[k])
    requires multiset(unsorted) == multiset(sorted)
    ensures Exact(sorted, prefs)
    ensures forall i :: 0 <= i < |sorted| ==> sorted[i].start <= sorted[i].end
  {
    forall iv ensures iv in unsorted <==> iv in sorted {
      assert iv in unsorted <==> iv in multiset(unsorted);
      assert iv in sorted <==> iv in multiset(sorted);
    }
    forall i | 0 <= i < |sorted| ensures sorted[i].start <= sorted[i].end {
      assert sorted[i] in unsorted;
    }
    forall x: int
      ensures HasPoint(sorted, x) <==> 0 <= x < 0x1_0000_0000 && Covers(prefs, x)
    {
      SamePoint(unsorted, sorted, x);
      SamePoint(sorted, unsorted, x);
      UnsortedPoint(unsorted, prefs, x);
    }
  }

  lemma SamePoint(a: seq<Interval>, b: seq<Interval>, x: int)
    requires forall iv :: iv in a ==> iv in b
    ensures HasPoint(a, x) ==> HasPoint(b, x)
  {
    if HasPoint(a, x) {
      var i :| 0 <= i < |a| && Within(x, a[i]);
      assert a[i] in b;
      var j :| 0 <= j < |b| && b[j] == a[i];
      assert Within(x, b[j]);
    }
  }

  lemma UnsortedPoint(ivs: seq<Interval>, prefs: seq<Prefix>, x: int)
    requires |ivs| == |prefs| && forall k :: 0 <= k < |prefs| ==> ivs[k] == PrefixToInterval(prefs[k])
    ensures HasPoint(ivs, x) <==> 0 <= x < 0x1_0000_0000 && Covers(prefs, x)
  {
    hide Size, Floor;
    if HasPoint(ivs, x) {
      var i :| 0 <= i < |ivs| && Within(x, ivs[i]);
      assert In(x, prefs[i]);
    }
    if 0 <= x < 0x1_0000_0000 && Covers(prefs, x) {
      var i :| 0 <= i < |prefs| && In(x, prefs[i]);
      assert Within(x, ivs[i]);
    }
  }

  // ----- the oracle is exact

  /** Non-touching intervals are determined by their points. */
  lemma {:induction false} NonTouchingUnique(a: seq<Interval>, b: seq<Interval>)
    requires NonTouching(a) && NonTouching(b)
    requires forall x: int :: HasPoint(a, x) <==> HasPoint(b, x)
    ensures a == b
  {
    if a != [] {
      assert Within(a[0].start, a[0]) && HasPoint(b, a[0].start);
    }
    if b != [] {
      assert Within(b[0].start, b[0]) && HasPoint(a, b[0].start);
    }
    if a != [] {
      FirstInterval(a, b);
      FirstInterval(b, a);
      TailPoints(a);
      TailPoints(b);
      NonTouchingUnique(a[1..], b[1..]);
    }
  }

  lemma FirstInterval(a: seq<Interval>, b: seq<Interval>)
    requires NonTouching(a) && NonTouching(b) && a != [] && b != []
    requires forall x: int :: HasPoint(a, x) <==> HasPoint(b, x)
    ensures a[0].start >= b[0].start
    ensures a[0].start == b[0].start ==> a[0].end <= b[0].end
  {
    assert Within(a[0].start, a[0]);
    assert HasPoint(b, a[0].start);
    var next := b[0].end + 1;
    assert !HasPoint(b, next);
    assert Within(next, a[0]) ==> HasPoint(a, next);
  }

  lemma TailPoints(a: seq<Interval>)
    requires NonTouching(a) && a != []
    ensures forall x: int :: HasPoint(a[1..], x) <==> HasPoint(a, x) && x > a[0].end
  {
    forall x: int
      ensures HasPoint(a[1..], x) <==> HasPoint(a, x) && x > a[0].end
    {
      if HasPoint(a[1..], x) {
        var i :| 0 <= i < |a[1..]| && Within(x, a[1..][i]);
        assert Within(x, a[i + 1]);
      }
      if HasPoint(a, x) && x > a[0].end {
        var i :| 0 <= i < |a| && Within(x, a[i]);
        assert Within(x, a[1..][i - 1]);
      }
    }
  }

  predicate IntervalsEqual(a: seq<Interval>, b: seq<Interval>) {
    |a| == |b| && forall i :: 0 <= i < |a| ==> a[i] == b[i]
  }

  /** Comparing merged intervals decides whether two lists denote the same addresses. */
  lemma IntervalsDecideUnion(ps: seq<Prefix>, qs: seq<Prefix>, a: seq<Interval>, b: seq<Interval>)
    requires NonTouching(a) && Exact(a, ps) && NonTouching(b) && Exact(b, qs)
    ensures IntervalsEqual(a, b) <==> Union(ps) == Union(qs)
  {
    if IntervalsEqual(a, b) {
      assert a == b;
      forall x: Addr ensures x in Union(ps) <==> x in Union(qs) {
        assert HasPoint(a, x) <==> HasPoint(b, x);
      }
    }
    if Union(ps) == Union(qs) {
      forall x: int ensures HasPoint(a, x) <==> HasPoint(b, x) {
        if 0 <= x < 0x1_0000_0000 {
          assert x in Union(ps) <==> x in Union(qs);
        }
      }
      NonTouchingUnique(a, b);
    }
  }

  ghost function Points(ivs: seq<Interval>): set<int> {
    set x: int | 0 <= x < 0x1_0000_0000 && HasPoint(ivs, x)
  }

  ghost predicate Bounded(ivs: seq<Interval>) {
    forall i :: 0 <= i < |ivs| ==> ivs[i].end < 0x1_0000_0000
  }

  /** unionAddressCount in unsigned 64-bit arithmetic: the number of addresses, never wrapping. */
  method UnionAddressCount(intervals: seq<Interval>) returns (n: nat)
    ensures n < 0x1_0000_0000_0000_0000
    ensures NonTouching(intervals) && Bounded(intervals) ==> n == |Points(intervals)|
  {
    n := 0;
    assert Points(intervals[..0]) == {};
    for i := 0 to |intervals|
      invariant n < 0x1_0000_0000_0000_0000
      invariant NonTouching(intervals) && Bounded(intervals) ==> n == |Points(intervals[..i])|
    {
      if NonTouching(intervals) && Bounded(intervals) {
        CountStep(intervals, i);
        AddressCount(intervals[..i + 1]);
      }
      n := (n + intervals[i].end - intervals[i].start + 1) % 0x1_0000_0000_0000_0000;
    }
    assert intervals[..|intervals|] == intervals;
  }

  /** Exact merged intervals meet the count's conditions, and their points are the union. */
  lemma ExactIntervalsCount(ivs: seq<Interval>, prefs: seq<Prefix>)
    requires NonTouching(ivs) && Exact(ivs, prefs)
    ensures Bounded(ivs)
    ensures forall x: Addr :: x in Points(ivs) <==> x in Union(prefs)
  {
    forall i | 0 <= i < |ivs| ensures ivs[i].end < 0x1_0000_0000 {
      assert Within(ivs[i].end, ivs[i]) && HasPoint(ivs, ivs[i].end);
    }
  }

  lemma AddressCount(ivs: seq<Interval>)
    ensures |Points(ivs)| <= 0x1_0000_0000
  {
    RangeSize(0, 0xFFFF_FFFF);
    SubsetSize(Points(ivs), Range(0, 0xFFFF_FFFF));
  }

  lemma {:induction false} SubsetSize(a: set<int>, b: set<int>)
    requires a <= b
    ensures |a| <= |b|
  {
    assert b == a + (b - a);
  }

  ghost predicate Between(lo: int, x: int, hi: int) {
    lo <= x <= hi
  }

  ghost function Range(lo: int, hi: int): set<int> {
    set x: int | lo <= x <= hi && Between(lo, x, hi)
  }

  lemma {:induction false} RangeSize(lo: int, hi: int)
    requires lo - 1 <= hi
    ensures |Range(lo, hi)| == hi - lo + 1
    decreases hi - lo
  {
    if lo <= hi {
      RangeSize(lo, hi - 1);
      var r := Range(lo, hi - 1);
      assert hi !in r;
      assert Range(lo, hi) == r + {hi};
    } else {
      assert Range(lo, hi) == {};
    }
  }

  lemma CountStep(ivs: seq<Interval>, i: nat)
    requires NonTouching(ivs) && Bounded(ivs) && i < |ivs|
    ensures |Points(ivs[..i + 1])| == |Points(ivs[..i])| + ivs[i].end - ivs[i].start + 1
  {
    var iv := ivs[i];
    assert ivs[..i + 1] == ivs[..i] + [iv];
    HasPointConcat(ivs[..i], [iv]);
    forall x: int ensures HasPoint([iv], x) <==> x in Range(iv.start, iv.end) {
      assert HasPoint([iv], x) <==> Within(x, [iv][0]);
    }
    assert Points(ivs[..i + 1]) == Points(ivs[..i]) + Range(iv.start, iv.end);
    assert Points(ivs[..i]) !! Range(iv.start, iv.end);
    RangeSize(iv.start, iv.end);
  }

  // ----- the direct check

  /** isMaximallyCollapsed: order of neighbours, no containment, no sibling pair anywhere. */
  predicate IsMaximallyCollapsed(prefs: seq<Prefix>) {
    && (forall i :: 1 <= i < |prefs| ==>
         var a, b := prefs[i - 1], prefs[i];
         && !(a.addr == b.addr && a.bits == b.bits)
         && !(b.addr < a.addr || (a.addr == b.addr && b.bits < a.bits)))
    && (forall i, j :: 0 <= i < |prefs| && 0 <= j < |prefs| && i != j ==> !PrefixContains(prefs[i], prefs[j]))
    && (forall i :: 0 <= i < |prefs| - 1 ==> MergeSiblings(prefs[i], prefs[i + 1]) == None)
    && (forall i, j :: 0 <= i < j < |prefs| ==> MergeSiblings(prefs[i], prefs[j]) == None)
  }

  /** On masked lists the check accepts exactly the canonical ones. */
  lemma MaximallyCollapsedIff(prefs: seq<Prefix>)
    requires AllMasked(prefs)
    ensures IsMaximallyCollapsed(prefs) <==> Canonical(prefs)
  {
    if IsMaximallyCollapsed(prefs) {
      CheckedIsCanonical(prefs);
    }
    if Canonical(prefs) {
      CanonicalIsChecked(prefs);
    }
  }

  lemma CheckedIsCanonical(prefs: seq<Prefix>)
    requires AllMasked(prefs) && IsMaximallyCollapsed(prefs)
    ensures Canonical(prefs)
  {
    forall i, j | 0 <= i < j < |prefs|
      ensures End(prefs[i]) <= First(prefs[j])
    {
      Increasing(prefs, i, j);
      ContainsIff(prefs[i], prefs[j]);
      ContainsIff(prefs[j], prefs[i]);
      if prefs[i].bits <= prefs[j].bits {
        Laminar(prefs[i], prefs[j]);
      } else {
        Laminar(prefs[j], prefs[i]);
      }
    }
    forall i | 0 <= i < |prefs| - 1
      ensures !Siblings(prefs[i], prefs[i + 1])
    {
      UnmergedAreNotSiblings(prefs[i], prefs[i + 1]);
    }
  }

  lemma {:induction false} Increasing(prefs: seq<Prefix>, i: nat, j: nat)
    requires IsMaximallyCollapsed(prefs) && i < j < |prefs|
    ensures prefs[i].addr <= prefs[j].addr
    decreases j - i
  {
    if i + 1 < j {
      Increasing(prefs, i, j - 1);
    }
  }

  lemma CanonicalIsChecked(prefs: seq<Prefix>)
    requires Canonical(prefs)
    ensures IsMaximallyCollapsed(prefs)
  {
    forall i, j | 0 <= i < |prefs| && 0 <= j < |prefs| && i != j
      ensures !PrefixContains(prefs[i], prefs[j])
    {
      ContainsIff(prefs[i], prefs[j]);
      OrderedGap(prefs, if i < j then i else j, if i < j then j else i);
    }
    forall i, j | 0 <= i < j < |prefs|
      ensures MergeSiblings(prefs[i], prefs[j]) == None
    {
      CanonicalHasNoSiblings(prefs, i, j);
      CanonicalHasNoSiblings(prefs, j, i);
      if m :| MergeSiblings(prefs[i], prefs[j]) == Some(m) {
        MergeIff(prefs[i], prefs[j], m);
      }
    }
    forall i | 1 <= i < |prefs|
      ensures prefs[i - 1].addr < prefs[i].addr
    {
      OrderedGap(prefs, i - 1, i);
    }
  }

  /** The two test oracles together pin the answer: a masked list passes both exactly when it is the collapsed list. */
  lemma OraclesPinTheAnswer(input: seq<Prefix>, output: seq<Prefix>, a: seq<Interval>, b: seq<Interval>)
    requires NonTouching(a) && Exact(a, input) && NonTouching(b) && Exact(b, output)
    ensures AllMasked(output) && IsMaximallyCollapsed(output) && IntervalsEqual(a, b) <==> output == Collapsed(input)
  {
    IntervalsDecideUnion(input, output, a, b);
    CollapsedIsCanonical(input);
    CollapsedUnion(input);
    if AllMasked(output) {
      MaximallyCollapsedIff(output);
      if Canonical(output) && Union(input) == Union(output) {
        CanonicalIsCollapsed(input, output);
      }
    }
  }
}
