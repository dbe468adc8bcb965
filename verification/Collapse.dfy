/** The prefix collapser: mask, sort, remove repetitions in place, drop covered prefixes,
  then merge sibling halves with a stack. */
module Collapse {
  import opened Wrappers
  import opened Ipv4
  import opened Sorting
  import opened Blocks

  // ----- comparisons of two prefixes

  /** The comparison passed to sort.Slice: by address, then broader first. */
  predicate PrefixLess(p: Prefix, q: Prefix) {
    if p.addr != q.addr then p.addr < q.addr else p.bits < q.bits
  }

  /** On masked prefixes this decides inclusion of blocks. */
  predicate PrefixContains(outer: Prefix, inner: Prefix) {
    outer.bits <= inner.bits && Masked(Prefix(inner.addr, outer.bits)) == outer
  }

  lemma ContainsIff(outer: Prefix, inner: Prefix)
    requires IsMasked(outer)
    ensures PrefixContains(outer, inner) <==> Inside(inner, outer)
  {
    InsideIff(inner, outer);
  }

  /** Conversion to an unsigned 32-bit number. */
  function Uint32(n: nat): (r: Addr)
    ensures n < 0x1_0000_0000 ==> r == n
  {
    n % 0x1_0000_0000
  }

  /** mergeIPv4Siblings: the parent if the two are its halves. */
  function MergeSiblings(a: Prefix, b: Prefix): Option<Prefix> {
    if a.bits != b.bits || a.bits == 0 then None
    else if b.addr < a.addr then MergeHalves(b, a)
    else MergeHalves(a, b)
  }

  /** The part after the swap, with the unsigned 32-bit wrap-around of the shift and of the sum. */
  function MergeHalves(a: Prefix, b: Prefix): Option<Prefix>
    requires a.bits == b.bits > 0
  {
    var parent := Masked(Prefix(a.addr, a.bits - 1));
    if Masked(Prefix(b.addr, a.bits - 1)) != parent then None
    else if a != Masked(Prefix(parent.addr, a.bits)) then None
    else
      var half := Uint32(Size(a.bits));
      var rightStart := Uint32(parent.addr + half);
      if b != Masked(Prefix(rightStart, a.bits)) then None else Some(parent)
  }

  lemma Fits32(n: nat)
    requires n < 0x1_0000_0000
    ensures Uint32(n) == n
  {
  }

  /** The 32-bit arithmetic never wraps. */
  lemma MergeDoesNotWrap(parent: Prefix)
    requires IsMasked(parent) && parent.bits < 32
    ensures Uint32(Size(parent.bits + 1)) == Size(parent.bits + 1)
    ensures Uint32(parent.addr + Uint32(Size(parent.bits + 1))) == Right(parent).addr
  {
    var half := Size(parent.bits + 1);
    SizeBound(parent.bits + 1);
    assert Right(parent).addr == parent.addr + half;
    hide *;
    Fits32(half);
    Fits32(parent.addr + half);
  }

  /** Merging succeeds exactly on the two halves of a block, given in either order, and gives that block. */
  lemma MergeIff(a: Prefix, b: Prefix, p: Prefix)
    ensures MergeSiblings(a, b) == Some(p) <==> AreHalves(a, b, p) || AreHalves(b, a, p)
  {
    if AreHalves(a, b, p) || AreHalves(b, a, p) {
      HalvesMerge(p);
    }
    if MergeSiblings(a, b) == Some(p) {
      MergedAreHalves(a, b, p);
    }
  }

  lemma HalvesMerge(p: Prefix)
    requires IsMasked(p) && p.bits < 32
    ensures MergeSiblings(Left(p), Right(p)) == Some(p) && MergeSiblings(Right(p), Left(p)) == Some(p)
  {
    hide Uint32, Floor, Size;
    var l, r := Left(p), Right(p);
    assert MergeHalves(l, r) == Some(p) by {
      MergeDoesNotWrap(p);
      assert Parent(l) == p && Parent(r) == p by { ParentOfHalf(p); }
      assert Masked(l) == l && Masked(r) == r by { Halves(p); }
    }
  }

  lemma MergedAreHalves(a: Prefix, b: Prefix, p: Prefix)
    requires MergeSiblings(a, b) == Some(p)
    ensures AreHalves(a, b, p) || AreHalves(b, a, p)
  {
    hide Uint32, Floor, Size;
    var lo := if b.addr < a.addr then b else a;
    MaskedIsMasked(Prefix(lo.addr, a.bits - 1));
    Halves(p);
    MergeDoesNotWrap(p);
  }

  lemma UnmergedAreNotSiblings(a: Prefix, b: Prefix)
    requires MergeSiblings(a, b) == None
    ensures !Siblings(a, b)
  {
    forall p ensures !AreHalves(a, b, p) {
      MergeIff(a, b, p);
    }
  }

  /** The merged block covers exactly what the two prefixes covered. */
  lemma MergeUnion(a: Prefix, b: Prefix, p: Prefix)
    requires MergeSiblings(a, b) == Some(p)
    ensures Union([a, b]) == Union([p])
  {
    MergedAreHalves(a, b, p);
    Halves(p);
    hide First, Floor, Size, MergeSiblings;
    assert forall x: Addr :: In(x, p) <==> In(x, a) || In(x, b);
    hide *;
    PairUnion(a, b, p);
  }

  lemma PairUnion(a: Prefix, b: Prefix, p: Prefix)
    requires forall x: Addr :: In(x, p) <==> In(x, a) || In(x, b)
    ensures Union([a, b]) == Union([p])
  {
    hide In;
    forall x: Addr
      ensures Covers([a, b], x) <==> Covers([p], x)
    {
      assert Covers([a, b], x) <==> In(x, [a, b][0]) || In(x, [a, b][1]);
      assert Covers([p], x) <==> In(x, [p][0]);
    }
  }

  // ----- the pipeline

  ghost predicate StrictlySorted(ps: seq<Prefix>) {
    forall i, j :: 0 <= i < j < |ps| ==> PrefixLess(ps[i], ps[j])
  }

  ghost predicate SameElements(ps: seq<Prefix>, qs: seq<Prefix>) {
    forall p :: p in ps <==> p in qs
  }

  /** CollapseIPv4: the one canonical list of the input's addresses. */
  method CollapseIPv4(prefs: seq<Prefix>) returns (collapsed: seq<Prefix>)
    ensures collapsed == Collapsed(prefs)
    ensures Canonical(collapsed) && Union(collapsed) == Union(prefs)
  {
    if |prefs| == 0 {
      CanonicalIsCollapsed(prefs, []);
      return [];
    }
    var normalized := new Prefix[|prefs|];
    for i := 0 to |prefs|
      invariant forall k :: 0 <= k < i ==> normalized[k] == Masked(prefs[k])
    {
      normalized[i] := Masked(prefs[i]);
    }
    ghost var masked := normalized[..];
    MaskingKeepsUnion(prefs, masked);
    SortSlice(normalized, PrefixLess);
    SameElementsOfPerm(masked, normalized[..]);
    var n := DedupeInPlace(normalized);
    var deduped := normalized[..n];
    SameElementsUnion(masked, deduped);
    var uncovered := RemoveCovered(deduped);
    collapsed := MergeSiblingStack(uncovered);
    CanonicalIsCollapsed(prefs, collapsed);
  }

  /** Keeps one of each run of equal elements, writing behind the read position. */
  method DedupeInPlace(a: array<Prefix>) returns (n: nat)
    requires SortedBy(a[..], PrefixLess)
    modifies a
    ensures n <= a.Length
    ensures StrictlySorted(a[..n]) && SameElements(a[..n], old(a[..]))
  {
    hide PrefixLess;
    n := 0;
    for i := 0 to a.Length
      invariant n <= i
      invariant a[i..] == old(a[i..])
      invariant StrictlySorted(a[..n])
      invariant SameElements(a[..n], old(a[..i]))
      invariant i > 0 ==> n > 0 && a[n - 1] == old(a[i - 1])
    {
      var p := a[i];
      assert p == old(a[..])[i] && old(a[..i + 1]) == old(a[..i]) + [p];
      assert i > 0 ==> !PrefixLess(old(a[..])[i], old(a[..])[i - 1]);
      ghost var kept, before := a[..n], old(a[..i]);
      if n > 0 && a[n - 1] == p {
        RepeatKept(kept, before, p);
        continue;
      }
      NewKept(kept, before, p);
      a[n] := p;
      n := n + 1;
      assert a[..n] == kept + [p];
    }
    assert old(a[..]) == old(a[..a.Length]);
  }

  lemma RepeatKept(kept: seq<Prefix>, before: seq<Prefix>, p: Prefix)
    requires SameElements(kept, before) && kept != [] && kept[|kept| - 1] == p
    ensures SameElements(kept, before + [p])
  {
    assert p in kept;
  }

  lemma NewKept(kept: seq<Prefix>, before: seq<Prefix>, p: Prefix)
    requires SameElements(kept, before) && StrictlySorted(kept)
    requires kept != [] ==> !PrefixLess(p, kept[|kept| - 1]) && p != kept[|kept| - 1]
    ensures SameElements(kept + [p], before + [p]) && StrictlySorted(kept + [p])
  {
    AppendSorted(kept, p);
    hide PrefixLess, StrictlySorted;
  }

  lemma AppendSorted(kept: seq<Prefix>, p: Prefix)
    requires StrictlySorted(kept)
    requires kept != [] ==> !PrefixLess(p, kept[|kept| - 1]) && p != kept[|kept| - 1]
    ensures StrictlySorted(kept + [p])
  {
    forall i | 0 <= i < |kept| ensures PrefixLess(kept[i], p) {
      assert i == |kept| - 1 || PrefixLess(kept[i], kept[|kept| - 1]);
    }
  }

  /** No other element contains p. */
  ghost predicate Uncovered(p: Prefix, ps: seq<Prefix>) {
    forall q :: q in ps && PrefixContains(q, p) ==> q == p
  }

  ghost predicate HasCoverer(ps: seq<Prefix>, p: Prefix) {
    exists k :: 0 <= k < |ps| && PrefixContains(ps[k], p)
  }

  /** What removeCoveredIPv4 has kept after i elements. */
  ghost predicate Kept(prefs: seq<Prefix>, i: nat, out: seq<Prefix>)
    requires i <= |prefs|
  {
    && AllMasked(out) && Ordered(out)
    && (forall p :: p in out <==> p in prefs[..i] && Uncovered(p, prefs))
    && (forall j :: 0 <= j < i ==> HasCoverer(out, prefs[j]))
  }

  /** removeCoveredIPv4: keeps exactly the prefixes contained in no other input prefix. */
  method RemoveCovered(prefs: seq<Prefix>) returns (out: seq<Prefix>)
    requires AllMasked(prefs) && StrictlySorted(prefs)
    ensures AllMasked(out) && Ordered(out) && Union(out) == Union(prefs)
    ensures forall p :: p in out <==> p in prefs && Uncovered(p, prefs)
  {
    out := [];
    for i := 0 to |prefs|
      invariant Kept(prefs, i, out)
    {
      var p := prefs[i];
      var covered := false;
      for c := 0 to |out|
        invariant !covered && forall k :: 0 <= k < c ==> !PrefixContains(out[k], p)
      {
        if PrefixContains(out[c], p) {
          covered := true;
          break;
        }
      }
      assert covered <==> HasCoverer(out, p);
      KeepStep(prefs, i, out);
      if !covered {
        out := out + [p];
      }
    }
    assert prefs[..|prefs|] == prefs;
    KeptUnion(prefs, out);
  }

  lemma LaterDoesNotContain(ps: seq<Prefix>, i: nat, j: nat)
    requires AllMasked(ps) && StrictlySorted(ps) && i < j < |ps|
    ensures !PrefixContains(ps[j], ps[i])
  {
    assert PrefixLess(ps[i], ps[j]);
  }

  lemma ContainsTransitive(a: Prefix, b: Prefix, c: Prefix)
    requires PrefixContains(a, b) && PrefixContains(b, c)
    ensures PrefixContains(a, c)
  {
    FloorFloor(c.addr, a.bits, b.bits);
  }

  lemma KeepStep(prefs: seq<Prefix>, i: nat, out: seq<Prefix>)
    requires AllMasked(prefs) && StrictlySorted(prefs) && i < |prefs| && Kept(prefs, i, out)
    ensures if HasCoverer(out, prefs[i]) then Kept(prefs, i + 1, out) else Kept(prefs, i + 1, out + [prefs[i]])
  {
    hide PrefixContains, First, End, PrefixLess, HasCoverer, Uncovered, IsMasked;
    if HasCoverer(out, prefs[i]) {
      CoveredStep(prefs, i, out);
    } else {
      NewlyUncovered(prefs, i, out);
      AppendOrdered(prefs, i, out);
      AppendCoverer(prefs, i, out);
      assert prefs[..i + 1] == prefs[..i] + [prefs[i]];
    }
  }

  lemma CoveredStep(prefs: seq<Prefix>, i: nat, out: seq<Prefix>)
    requires StrictlySorted(prefs) && i < |prefs| && Kept(prefs, i, out) && HasCoverer(out, prefs[i])
    ensures Kept(prefs, i + 1, out)
  {
    hide PrefixContains, First, End, IsMasked;
    assert prefs[..i + 1] == prefs[..i] + [prefs[i]];
    var k :| 0 <= k < |out| && PrefixContains(out[k], prefs[i]);
    KeptBefore(prefs, i, out, k);
    assert !Uncovered(prefs[i], prefs);
    hide HasCoverer, Uncovered;
  }

  /** What is kept is an earlier, strictly smaller element. */
  lemma KeptBefore(prefs: seq<Prefix>, i: nat, out: seq<Prefix>, k: nat)
    requires StrictlySorted(prefs) && i < |prefs| && Kept(prefs, i, out) && k < |out|
    ensures out[k] in prefs && out[k] != prefs[i] && PrefixLess(out[k], prefs[i])
  {
    hide PrefixContains, First, End, HasCoverer, Uncovered;
    assert out[k] in prefs[..i];
    var j :| 0 <= j < i && prefs[j] == out[k];
    assert PrefixLess(prefs[j], prefs[i]);
  }

  lemma AppendOrdered(prefs: seq<Prefix>, i: nat, out: seq<Prefix>)
    requires AllMasked(prefs) && StrictlySorted(prefs) && i < |prefs| && Kept(prefs, i, out)
    requires !HasCoverer(out, prefs[i])
    ensures AllMasked(out + [prefs[i]]) && Ordered(out + [prefs[i]])
  {
    hide First, End, PrefixContains, PrefixLess, Uncovered;
    forall k | 0 <= k < |out|
      ensures End(out[k]) <= First(prefs[i])
    {
      KeptBefore(prefs, i, out, k);
      assert !PrefixContains(out[k], prefs[i]);
      StaysBefore(out[k], prefs[i]);
    }
  }

  lemma AppendCoverer(prefs: seq<Prefix>, i: nat, out: seq<Prefix>)
    requires AllMasked(prefs) && i < |prefs| && Kept(prefs, i, out)
    ensures forall j :: 0 <= j <= i ==> HasCoverer(out + [prefs[i]], prefs[j])
  {
    assert PrefixContains(prefs[i], prefs[i]);
    hide PrefixContains, First, End, Uncovered, Ordered;
    var next := out + [prefs[i]];
    forall j | 0 <= j <= i ensures HasCoverer(next, prefs[j]) {
      if j < i {
        assert HasCoverer(out, prefs[j]);
        var k :| 0 <= k < |out| && PrefixContains(out[k], prefs[j]);
        assert next[k] == out[k];
      } else {
        assert next[|out|] == prefs[i];
      }
    }
  }

  lemma NewlyUncovered(prefs: seq<Prefix>, i: nat, out: seq<Prefix>)
    requires AllMasked(prefs) && StrictlySorted(prefs) && i < |prefs| && Kept(prefs, i, out)
    requires !HasCoverer(out, prefs[i])
    ensures Uncovered(prefs[i], prefs)
  {
    forall j | 0 <= j < |prefs| && j != i
      ensures !PrefixContains(prefs[j], prefs[i])
    {
      if j < i {
        assert HasCoverer(out, prefs[j]);
        if PrefixContains(prefs[j], prefs[i]) {
          CovererOfCovered(out, prefs[j], prefs[i]);
        }
      } else {
        LaterDoesNotContain(prefs, i, j);
      }
    }
  }

  lemma CovererOfCovered(ps: seq<Prefix>, a: Prefix, b: Prefix)
    requires HasCoverer(ps, a) && PrefixContains(a, b)
    ensures HasCoverer(ps, b)
  {
    var k :| 0 <= k < |ps| && PrefixContains(ps[k], a);
    ContainsTransitive(ps[k], a, b);
    hide PrefixContains;
  }

  lemma StaysBefore(p: Prefix, q: Prefix)
    requires IsMasked(p) && IsMasked(q) && PrefixLess(p, q) && !PrefixContains(p, q)
    ensures End(p) <= First(q)
  {
    ContainsIff(p, q);
    ContainsIff(q, p);
    if p.bits <= q.bits {
      Laminar(p, q);
    } else {
      Laminar(q, p);
    }
    hide Floor, Size;
  }

  lemma KeptUnion(prefs: seq<Prefix>, out: seq<Prefix>)
    requires AllMasked(prefs) && Kept(prefs, |prefs|, out)
    ensures Union(out) == Union(prefs)
  {
    hide PrefixContains, First, End, In, Uncovered, IsMasked, Ordered;
    forall x: Addr
      ensures Covers(out, x) <==> Covers(prefs, x)
    {
      if Covers(out, x) {
        var k :| 0 <= k < |out| && In(x, out[k]);
        assert out[k] in prefs[..|prefs|];
        var j :| 0 <= j < |prefs| && prefs[j] == out[k];
        assert In(x, prefs[j]);
      }
      if Covers(prefs, x) {
        var j :| 0 <= j < |prefs| && In(x, prefs[j]);
        assert HasCoverer(out, prefs[j]);
        var k :| 0 <= k < |out| && PrefixContains(out[k], prefs[j]);
        ContainedIn(out[k], prefs[j], x);
      }
    }
  }

  lemma ContainedIn(outer: Prefix, inner: Prefix, x: Addr)
    requires IsMasked(outer) && PrefixContains(outer, inner) && In(x, inner)
    ensures In(x, outer)
  {
    ContainsIff(outer, inner);
    hide First, End, PrefixContains;
  }

  /** The scan over everything kept could look at the last kept prefix alone: only that one can cover
      a prefix that comes later in the order. */
  lemma OnlyLastCanCover(prefs: seq<Prefix>, i: nat, out: seq<Prefix>)
    requires AllMasked(prefs) && StrictlySorted(prefs) && i < |prefs| && Kept(prefs, i, out)
    ensures HasCoverer(out, prefs[i]) <==> out != [] && PrefixContains(out[|out| - 1], prefs[i])
  {
    hide PrefixContains, Uncovered, PrefixLess;
    forall k | 0 <= k < |out| - 1
      ensures !PrefixContains(out[k], prefs[i])
    {
      var last := out[|out| - 1];
      assert End(out[k]) <= First(last);
      KeptBefore(prefs, i, out, |out| - 1);
      LessStartsLater(last, prefs[i]);
      ContainsIff(out[k], prefs[i]);
    }
  }

  lemma LessStartsLater(p: Prefix, q: Prefix)
    requires IsMasked(p) && IsMasked(q) && PrefixLess(p, q)
    ensures First(p) <= First(q) < End(q)
  {
  }

  /** The stack and the unread suffix together: in order, and covering the input exactly. */
  ghost predicate StackState(prefs: seq<Prefix>, stack: seq<Prefix>, rest: seq<Prefix>) {
    AllMasked(stack + rest) && Ordered(stack + rest) && Union(stack + rest) == Union(prefs)
  }

  /** mergeSiblingStack: push, then merge the top pair while it is a sibling pair. */
  method MergeSiblingStack(prefs: seq<Prefix>) returns (stack: seq<Prefix>)
    requires AllMasked(prefs) && Ordered(prefs)
    ensures Canonical(stack) && Union(stack) == Union(prefs)
  {
    hide First, End, Size, MergeSiblings;
    stack := [];
    assert stack + prefs[0..] == prefs;
    for i := 0 to |prefs|
      invariant StackState(prefs, stack, prefs[i..])
      invariant SiblingFree(stack)
    {
      assert stack + prefs[i..] == (stack + [prefs[i]]) + prefs[i + 1..];
      stack := stack + [prefs[i]];
      while |stack| >= 2
        invariant |stack| >= 1
        invariant StackState(prefs, stack, prefs[i + 1..])
        invariant SiblingFree(stack[..|stack| - 1])
        invariant |stack| == 1 ==> SiblingFree(stack)
        decreases |stack|
      {
        var a, b := stack[|stack| - 2], stack[|stack| - 1];
        var parent := MergeSiblings(a, b);
        if parent == None {
          UnmergedTop(stack);
          break;
        }
        MergeTop(prefs, stack, prefs[i + 1..], parent.value);
        stack := stack[..|stack| - 2];
        stack := stack + [parent.value];
      }
    }
    assert stack + prefs[|prefs|..] == stack;
  }

  lemma UnmergedTop(stack: seq<Prefix>)
    requires |stack| >= 2 && SiblingFree(stack[..|stack| - 1])
    requires MergeSiblings(stack[|stack| - 2], stack[|stack| - 1]) == None
    ensures SiblingFree(stack)
  {
    UnmergedAreNotSiblings(stack[|stack| - 2], stack[|stack| - 1]);
    forall i | 0 <= i < |stack| - 2 ensures !Siblings(stack[i], stack[i + 1]) {
      assert stack[..|stack| - 1][i] == stack[i] && stack[..|stack| - 1][i + 1] == stack[i + 1];
    }
  }

  /** Replacing the top pair by its parent keeps the order, the union and the merged part below. */
  lemma MergeTop(prefs: seq<Prefix>, stack: seq<Prefix>, rest: seq<Prefix>, p: Prefix)
    requires |stack| >= 2 && StackState(prefs, stack, rest) && SiblingFree(stack[..|stack| - 1])
    requires MergeSiblings(stack[|stack| - 2], stack[|stack| - 1]) == Some(p)
    ensures StackState(prefs, stack[..|stack| - 2] + [p], rest)
    ensures SiblingFree(stack[..|stack| - 2])
  {
    hide First, End, MergeSiblings, In;
    var n := |stack|;
    var below, a, b := stack[..n - 2], stack[n - 2], stack[n - 1];
    assert stack + rest == below + [a, b] + rest;
    assert (stack + rest)[n - 2] == a && (stack + rest)[n - 1] == b;
    MergedSpan(a, b, p);
    MergeOrdered(below, a, b, rest, p);
    MergeUnion(a, b, p);
    forall x: Addr
      ensures Covers(below + [p] + rest, x) <==> Covers(below + [a, b] + rest, x)
    {
      CoversConcat(below + [p], rest, x);
      CoversConcat(below, [p], x);
      CoversConcat(below + [a, b], rest, x);
      CoversConcat(below, [a, b], x);
      assert Covers([a, b], x) <==> x in Union([p]);
    }
    assert Union(below + [p] + rest) == Union(below + [a, b] + rest);
    forall i | 0 <= i < n - 3 ensures !Siblings(below[i], below[i + 1]) {
      assert stack[..n - 1][i] == below[i] && stack[..n - 1][i + 1] == below[i + 1];
    }
  }

  lemma MergedSpan(a: Prefix, b: Prefix, p: Prefix)
    requires MergeSiblings(a, b) == Some(p) && End(a) <= First(b)
    ensures IsMasked(p) && First(p) == First(a) && End(p) == End(b)
  {
    MergedAreHalves(a, b, p);
    Halves(p);
  }

  lemma MergeOrdered(below: seq<Prefix>, a: Prefix, b: Prefix, rest: seq<Prefix>, p: Prefix)
    requires AllMasked(below + [a, b] + rest) && Ordered(below + [a, b] + rest)
    requires IsMasked(p) && First(p) == First(a) && End(p) == End(b)
    ensures AllMasked(below + [p] + rest) && Ordered(below + [p] + rest)
  {
    hide First, End;
    var before, after := below + [a, b] + rest, below + [p] + rest;
    var n := |below|;
    assert before[n] == a && before[n + 1] == b;
    assert forall i :: 0 <= i < n ==> after[i] == before[i];
    assert forall i :: n < i < |after| ==> after[i] == before[i + 1];
  }

  // ----- lists with the same elements

  lemma MaskingKeepsUnion(prefs: seq<Prefix>, masked: seq<Prefix>)
    requires |masked| == |prefs| && forall k :: 0 <= k < |prefs| ==> masked[k] == Masked(prefs[k])
    ensures Union(masked) == Union(prefs) && AllMasked(masked)
  {
    forall k | 0 <= k < |prefs|
      ensures IsMasked(masked[k]) && First(masked[k]) == First(prefs[k]) && End(masked[k]) == End(prefs[k])
    {
      MaskedIsMasked(prefs[k]);
    }
    forall x: Addr
      ensures Covers(masked, x) <==> Covers(prefs, x)
    {
      assert forall k :: 0 <= k < |prefs| ==> (In(x, masked[k]) <==> In(x, prefs[k]));
    }
  }

  lemma SameElementsOfPerm(ps: seq<Prefix>, qs: seq<Prefix>)
    requires multiset(ps) == multiset(qs)
    ensures SameElements(ps, qs)
  {
    forall p ensures p in ps <==> p in qs {
      assert p in ps <==> p in multiset(ps);
      assert p in qs <==> p in multiset(qs);
    }
  }

  lemma SameElementsUnion(ps: seq<Prefix>, qs: seq<Prefix>)
    requires SameElements(ps, qs) && AllMasked(ps)
    ensures Union(ps) == Union(qs) && AllMasked(qs)
  {
    hide First, End;
    forall i | 0 <= i < |qs| ensures IsMasked(qs[i]) {
      assert qs[i] in ps;
    }
    forall x: Addr ensures Covers(ps, x) <==> Covers(qs, x) {
      CoversMore(ps, qs, x);
      CoversMore(qs, ps, x);
    }
  }
}
