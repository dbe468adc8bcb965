/** The reference answer for prefix collapsing: the maximal blocks of a set of addresses,
  found by descending the tree of blocks, and what makes a list of prefixes equal to it. */
module Blocks {
  import opened Ipv4

  ghost predicate Covers(ps: seq<Prefix>, x: Addr) {
    exists i :: 0 <= i < |ps| && In(x, ps[i])
  }

  /** The addresses a list of prefixes denotes. */
  ghost function Union(ps: seq<Prefix>): iset<Addr> {
    iset x: Addr | Covers(ps, x)
  }

  ghost predicate Full(U: iset<Addr>, p: Prefix) {
    forall x: Addr :: In(x, p) ==> x in U
  }

  /** The maximal blocks of U inside p, in address order. */
  ghost function MaximalBlocks(U: iset<Addr>, p: Prefix): seq<Prefix>
    requires IsMasked(p)
    decreases 32 - p.bits
  {
    if Full(U, p) then [p]
    else if p.bits == 32 then []
    else
      Halves(p);
      MaximalBlocks(U, Left(p)) + MaximalBlocks(U, Right(p))
  }

  /** The answer CollapseIPv4 promises for a list of prefixes. */
  ghost function Collapsed(ps: seq<Prefix>): seq<Prefix> {
    MaximalBlocks(Union(ps), ROOT)
  }

  lemma CoversConcat(ps: seq<Prefix>, qs: seq<Prefix>, x: Addr)
    ensures Covers(ps + qs, x) <==> Covers(ps, x) || Covers(qs, x)
  {
    var rs := ps + qs;
    if Covers(ps, x) {
      var i :| 0 <= i < |ps| && In(x, ps[i]);
      assert In(x, rs[i]);
    }
    if Covers(qs, x) {
      var i :| 0 <= i < |qs| && In(x, qs[i]);
      assert In(x, rs[|ps| + i]);
    }
    if Covers(rs, x) {
      var i :| 0 <= i < |rs| && In(x, rs[i]);
      if i < |ps| {
        assert In(x, ps[i]);
      } else {
        assert In(x, qs[i - |ps|]);
      }
    }
  }

  // ----- canonical lists

  ghost predicate AllMasked(ps: seq<Prefix>) {
    forall i :: 0 <= i < |ps| ==> IsMasked(ps[i])
  }

  /** Strictly increasing and pairwise disjoint. */
  ghost predicate Ordered(ps: seq<Prefix>) {
    forall i, j :: 0 <= i < j < |ps| ==> End(ps[i]) <= First(ps[j])
  }

  ghost predicate AreHalves(a: Prefix, b: Prefix, p: Prefix) {
    IsMasked(p) && p.bits < 32 && a == Left(p) && b == Right(p)
  }

  ghost predicate Siblings(a: Prefix, b: Prefix) {
    exists p :: AreHalves(a, b, p)
  }

  /** No neighbouring pair makes up the two halves of one block. */
  ghost predicate SiblingFree(ps: seq<Prefix>) {
    forall i :: 0 <= i < |ps| - 1 ==> !Siblings(ps[i], ps[i + 1])
  }

  ghost predicate Canonical(ps: seq<Prefix>) {
    AllMasked(ps) && Ordered(ps) && SiblingFree(ps)
  }

  ghost predicate AllInside(ps: seq<Prefix>, p: Prefix) {
    forall i :: 0 <= i < |ps| ==> Inside(ps[i], p)
  }

  lemma OrderedGap(ps: seq<Prefix>, i: nat, j: nat)
    requires Ordered(ps) && i < j < |ps|
    ensures First(ps[i]) < First(ps[j]) && End(ps[i]) < End(ps[j])
    ensures i + 1 < j ==> End(ps[i]) < First(ps[j])
  {
    if i + 1 < j {
      assert End(ps[i]) <= First(ps[i + 1]) && End(ps[i + 1]) <= First(ps[j]);
    }
  }

  lemma TouchingAreNeighbours(ps: seq<Prefix>, i: nat, j: nat)
    requires Ordered(ps) && i < |ps| && j < |ps| && End(ps[i]) == First(ps[j])
    ensures j == i + 1
  {
    if i < j {
      OrderedGap(ps, i, j);
    } else if j < i {
      OrderedGap(ps, j, i);
    }
  }

  /** In a canonical list no two positions at all hold a sibling pair, in either order. */
  lemma CanonicalHasNoSiblings(ps: seq<Prefix>, i: nat, j: nat)
    requires Canonical(ps) && i < |ps| && j < |ps|
    ensures !Siblings(ps[i], ps[j])
  {
    if Siblings(ps[i], ps[j]) {
      var p :| AreHalves(ps[i], ps[j], p);
      Halves(p);
      TouchingAreNeighbours(ps, i, j);
    }
  }

  /** An ordered list of blocks strictly inside p splits at the middle of p. */
  lemma SplitAtHalf(ps: seq<Prefix>, p: Prefix) returns (k: nat)
    requires AllMasked(ps) && Ordered(ps) && AllInside(ps, p) && p !in ps
    requires IsMasked(p) && p.bits < 32
    ensures k <= |ps|
    ensures AllInside(ps[..k], Left(p)) && AllInside(ps[k..], Right(p))
  {
    Halves(p);
    forall i | 0 <= i < |ps|
      ensures Inside(ps[i], Left(p)) || Inside(ps[i], Right(p))
    {
      InsideHalf(ps[i], p);
    }
    k := 0;
    while k < |ps| && Inside(ps[k], Left(p))
      invariant k <= |ps| && forall i :: 0 <= i < k ==> Inside(ps[i], Left(p))
    {
      k := k + 1;
    }
    forall i | k <= i < |ps|
      ensures Inside(ps[i], Right(p))
    {
      assert Inside(ps[k], Right(p));
      assert i == k || End(ps[k]) <= First(ps[i]);
    }
  }

  lemma SplitCovers(ps: seq<Prefix>, p: Prefix, k: nat)
    requires IsMasked(p) && p.bits < 32 && k <= |ps|
    requires AllInside(ps[..k], Left(p)) && AllInside(ps[k..], Right(p))
    ensures forall x: Addr :: In(x, Left(p)) ==> (Covers(ps[..k], x) <==> Covers(ps, x))
    ensures forall x: Addr :: In(x, Right(p)) ==> (Covers(ps[k..], x) <==> Covers(ps, x))
  {
    Halves(p);
    forall i | k <= i < |ps| ensures Inside(ps[i], Right(p)) {
      assert ps[k..][i - k] == ps[i];
    }
    forall i | 0 <= i < k ensures Inside(ps[i], Left(p)) {
      assert ps[..k][i] == ps[i];
    }
    assert ps == ps[..k] + ps[k..];
    forall x: Addr
      ensures Covers(ps, x) <==> Covers(ps[..k], x) || Covers(ps[k..], x)
    {
      CoversConcat(ps[..k], ps[k..], x);
    }
  }

  lemma SplitCanonical(ps: seq<Prefix>, k: nat)
    requires Canonical(ps) && k <= |ps|
    ensures Canonical(ps[..k]) && Canonical(ps[k..])
  {
    var qs := ps[k..];
    forall i | 0 <= i < |qs| - 1
      ensures !Siblings(qs[i], qs[i + 1])
    {
      assert qs[i] == ps[k + i] && qs[i + 1] == ps[k + i + 1];
    }
  }

  lemma OnlyInside(ps: seq<Prefix>, p: Prefix)
    requires Ordered(ps) && AllInside(ps, p) && p in ps
    ensures ps == [p]
  {
    if |ps| > 1 {
      OrderedGap(ps, 0, |ps| - 1);
    }
  }

  /** Splits a canonical list at the middle of p into two canonical lists. */
  lemma SplitList(ps: seq<Prefix>, p: Prefix) returns (ls: seq<Prefix>, rs: seq<Prefix>)
    requires IsMasked(p) && p.bits < 32 && Canonical(ps) && AllInside(ps, p) && p !in ps
    ensures ps == ls + rs && Canonical(ls) && Canonical(rs)
    ensures AllInside(ls, Left(p)) && AllInside(rs, Right(p))
    ensures IsMasked(Left(p)) && IsMasked(Right(p))
    ensures forall x: Addr :: In(x, Left(p)) ==> In(x, p) && (Covers(ls, x) <==> Covers(ps, x))
    ensures forall x: Addr :: In(x, Right(p)) ==> In(x, p) && (Covers(rs, x) <==> Covers(ps, x))
  {
    Halves(p);
    var k := SplitAtHalf(ps, p);
    SplitCovers(ps, p, k);
    SplitCanonical(ps, k);
    ls, rs := ps[..k], ps[k..];
  }

  /** The deepest-prefix argument: a canonical list that fills p is p alone. */
  lemma {:induction false} FullIsSingle(ps: seq<Prefix>, p: Prefix)
    requires IsMasked(p) && Canonical(ps) && AllInside(ps, p)
    requires forall x: Addr :: In(x, p) ==> Covers(ps, x)
    ensures ps == [p]
    decreases 32 - p.bits
  {
    assert In(First(p), p);
    if p in ps {
      OnlyInside(ps, p);
    } else {
      var i :| 0 <= i < |ps| && In(First(p), ps[i]);
      InsideHalf(ps[i], p);
      var ls, rs := SplitList(ps, p);
      FullIsSingle(ls, Left(p));
      FullIsSingle(rs, Right(p));
      assert AreHalves(ps[0], ps[1], p);
    }
  }

  /** Uniqueness: a canonical list is the list of maximal blocks of the addresses it covers. */
  lemma {:induction false} CanonicalIsMaximal(U: iset<Addr>, ps: seq<Prefix>, p: Prefix)
    requires IsMasked(p) && Canonical(ps) && AllInside(ps, p)
    requires forall x: Addr :: In(x, p) ==> (x in U <==> Covers(ps, x))
    ensures ps == MaximalBlocks(U, p)
    decreases 32 - p.bits
  {
    if Full(U, p) {
      FullIsSingle(ps, p);
    } else {
      NotFullNotListed(U, ps, p);
      if p.bits == 32 {
        if ps != [] {
          InsideHalf(ps[0], p);
        }
      } else {
        var ls, rs := SplitList(ps, p);
        CanonicalIsMaximal(U, ls, Left(p));
        CanonicalIsMaximal(U, rs, Right(p));
      }
    }
  }

  lemma NotFullNotListed(U: iset<Addr>, ps: seq<Prefix>, p: Prefix)
    requires !Full(U, p)
    requires forall x: Addr :: In(x, p) ==> (x in U <==> Covers(ps, x))
    ensures p !in ps
  {
    var x: Addr :| In(x, p) && x !in U;
    assert forall i :: 0 <= i < |ps| ==> !In(x, ps[i]);
  }

  lemma RootHoldsAll(p: Prefix)
    ensures Inside(p, ROOT) && IsMasked(ROOT)
  {
    SizeZero();
  }

  /** The answer is the only canonical list of its addresses. */
  lemma CanonicalIsCollapsed(ps: seq<Prefix>, qs: seq<Prefix>)
    requires Canonical(qs) && Union(ps) == Union(qs)
    ensures qs == Collapsed(ps)
  {
    forall i | 0 <= i < |qs| ensures Inside(qs[i], ROOT) {
      RootHoldsAll(qs[i]);
    }
    RootHoldsAll(ROOT);
    forall x: Addr | In(x, ROOT)
      ensures x in Union(ps) <==> Covers(qs, x)
    {
      assert x in Union(qs) <==> Covers(qs, x);
    }
    CanonicalIsMaximal(Union(ps), qs, ROOT);
  }

  // ----- properties of the maximal blocks

  /** They are in order and do not leave p. */
  lemma {:induction false} BlocksOrdered(U: iset<Addr>, p: Prefix)
    requires IsMasked(p)
    ensures AllMasked(MaximalBlocks(U, p)) && Ordered(MaximalBlocks(U, p)) && AllInside(MaximalBlocks(U, p), p)
    decreases 32 - p.bits
  {
    if !Full(U, p) && p.bits < 32 {
      Halves(p);
      BlocksOrdered(U, Left(p));
      BlocksOrdered(U, Right(p));
      OrderedConcat(MaximalBlocks(U, Left(p)), MaximalBlocks(U, Right(p)), p);
    }
  }

  lemma OrderedConcat(ls: seq<Prefix>, rs: seq<Prefix>, p: Prefix)
    requires IsMasked(p) && p.bits < 32
    requires Ordered(ls) && Ordered(rs) && AllInside(ls, Left(p)) && AllInside(rs, Right(p))
    ensures Ordered(ls + rs) && AllInside(ls + rs, p)
  {
    Halves(p);
  }

  /** They cover exactly U within p. */
  lemma {:induction false} BlocksCover(U: iset<Addr>, p: Prefix, x: Addr)
    requires IsMasked(p)
    ensures Covers(MaximalBlocks(U, p), x) <==> In(x, p) && x in U
    decreases 32 - p.bits
  {
    var bs := MaximalBlocks(U, p);
    if Full(U, p) {
      assert In(x, p) ==> In(x, bs[0]);
    } else if p.bits < 32 {
      Halves(p);
      BlocksCover(U, Left(p), x);
      BlocksCover(U, Right(p), x);
      CoversConcat(MaximalBlocks(U, Left(p)), MaximalBlocks(U, Right(p)), x);
    } else {
      assert In(x, p) ==> x == First(p);
    }
  }

  /** Every listed block is full and, unless it is the start, its parent is not. */
  lemma {:induction false} BlocksAreMaximal(U: iset<Addr>, p: Prefix, q: Prefix)
    requires IsMasked(p) && q in MaximalBlocks(U, p)
    ensures Full(U, q) && (q == p || (q.bits > 0 && !Full(U, Parent(q))))
    decreases 32 - p.bits
  {
    if !Full(U, p) && p.bits < 32 {
      Halves(p);
      ParentOfHalf(p);
      BlocksAreMaximal(U, if q in MaximalBlocks(U, Left(p)) then Left(p) else Right(p), q);
    }
  }

  lemma CollapsedUnion(ps: seq<Prefix>)
    ensures Union(Collapsed(ps)) == Union(ps)
  {
    RootHoldsAll(ROOT);
    SizeZero();
    forall x: Addr
      ensures x in Union(Collapsed(ps)) <==> x in Union(ps)
    {
      BlocksCover(Union(ps), ROOT, x);
      assert In(x, ROOT);
    }
  }

  lemma CollapsedIsCanonical(ps: seq<Prefix>)
    ensures Canonical(Collapsed(ps))
  {
    var U, bs := Union(ps), Collapsed(ps);
    RootHoldsAll(ROOT);
    BlocksOrdered(U, ROOT);
    forall i | 0 <= i < |bs| - 1
      ensures !Siblings(bs[i], bs[i + 1])
    {
      if Siblings(bs[i], bs[i + 1]) {
        var p :| AreHalves(bs[i], bs[i + 1], p);
        BlocksAreMaximal(U, ROOT, bs[i]);
        BlocksAreMaximal(U, ROOT, bs[i + 1]);
        Halves(p);
        ParentOfHalf(p);
      }
    }
  }

  // ----- minimality

  ghost predicate Meets(q: Prefix, p: Prefix) {
    !Disjoint(q, p)
  }

  /** How many prefixes of qs have an address in p. */
  ghost function Meeting(qs: seq<Prefix>, p: Prefix): (n: nat)
    ensures n <= |qs|
  {
    if qs == [] then 0 else (if Meets(qs[0], p) then 1 else 0) + Meeting(qs[1..], p)
  }

  lemma {:induction false} MeetingHalves(qs: seq<Prefix>, p: Prefix)
    requires IsMasked(p) && p.bits < 32
    requires forall i :: 0 <= i < |qs| ==> !Inside(p, qs[i])
    ensures Meeting(qs, Left(p)) + Meeting(qs, Right(p)) <= Meeting(qs, p)
  {
    if qs != [] {
      Halves(p);
      var q := qs[0];
      if q.bits <= p.bits {
        Laminar(q, p);
      } else {
        Laminar(p, q);
        Laminar(Left(p), q);
        Laminar(Right(p), q);
      }
      forall i | 0 <= i < |qs[1..]| ensures !Inside(p, qs[1..][i]) {
        assert qs[1..][i] == qs[i + 1];
      }
      MeetingHalves(qs[1..], p);
    }
  }

  lemma {:induction false} MeetingPositive(qs: seq<Prefix>, p: Prefix, i: nat)
    requires i < |qs| && Meets(qs[i], p)
    ensures Meeting(qs, p) >= 1
  {
    hide Meets;
    if i > 0 {
      MeetingPositive(qs[1..], p, i - 1);
    }
  }

  /** Any cover of U spends at least one prefix on each maximal block. */
  lemma {:induction false} BlocksAtMost(U: iset<Addr>, p: Prefix, qs: seq<Prefix>)
    requires IsMasked(p) && U == Union(qs)
    ensures |MaximalBlocks(U, p)| <= Meeting(qs, p)
    decreases 32 - p.bits
  {
    if Full(U, p) {
      assert In(First(p), p);
      var i :| 0 <= i < |qs| && In(First(p), qs[i]);
      MeetingPositive(qs, p, i);
    } else if p.bits < 32 {
      Halves(p);
      BlocksAtMost(U, Left(p), qs);
      BlocksAtMost(U, Right(p), qs);
      forall i | 0 <= i < |qs|
        ensures !Inside(p, qs[i])
      {
        var x: Addr :| In(x, p) && x !in U;
        assert !In(x, qs[i]);
      }
      MeetingHalves(qs, p);
    }
  }

  /** Minimality: no list of prefixes with the same addresses is shorter. */
  lemma CollapsedIsMinimal(ps: seq<Prefix>, qs: seq<Prefix>)
    requires Union(qs) == Union(ps)
    ensures |Collapsed(ps)| <= |qs|
  {
    RootHoldsAll(ROOT);
    BlocksAtMost(Union(ps), ROOT, qs);
  }

  /** Canonicity: two inputs collapse to the same list exactly when they denote the same addresses. */
  lemma CollapsedCanonicity(ps: seq<Prefix>, qs: seq<Prefix>)
    ensures Collapsed(ps) == Collapsed(qs) <==> Union(ps) == Union(qs)
  {
    CollapsedUnion(ps);
    CollapsedUnion(qs);
  }

  lemma CollapsedIdempotent(ps: seq<Prefix>)
    ensures Collapsed(Collapsed(ps)) == Collapsed(ps)
  {
    CollapsedUnion(ps);
  }

  /** Order, repetition and host bits of the input do not matter. */
  lemma CollapsedInsensitive(ps: seq<Prefix>, qs: seq<Prefix>)
    requires forall p :: p in ps ==> exists q :: q in qs && Masked(q) == Masked(p)
    requires forall q :: q in qs ==> exists p :: p in ps && Masked(p) == Masked(q)
    ensures Collapsed(ps) == Collapsed(qs)
  {
    forall x: Addr
      ensures Covers(ps, x) <==> Covers(qs, x)
    {
      CoversMore(ps, qs, x);
      CoversMore(qs, ps, x);
    }
    assert Union(ps) == Union(qs);
  }

  lemma CoversMore(ps: seq<Prefix>, qs: seq<Prefix>, x: Addr)
    requires forall p :: p in ps ==> exists q :: q in qs && Masked(q) == Masked(p)
    ensures Covers(ps, x) ==> Covers(qs, x)
  {
    if Covers(ps, x) {
      var i :| 0 <= i < |ps| && In(x, ps[i]);
      var q :| q in qs && Masked(q) == Masked(ps[i]);
      var j :| 0 <= j < |qs| && qs[j] == q;
      assert In(x, qs[j]);
    }
  }
}
