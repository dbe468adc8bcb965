/** The no-op decision, and the apply that cannot see the table, against the packets: exactly when the table that
  is there afterwards does to every packet what the policy's own table would. */
module NftSoundness {
  import opened Wrappers
  import opened Ipv4
  import opened Policy
  import opened NftKernel
  import opened NftRender
  import opened NftPile
  import opened NftMeaning
  import opened NftLive
  import opened NftDecision

  /** Two tables do the same to every packet at a hook. */
  ghost predicate SameAtHook(t: Table, u: Table, hook: string) {
    forall pkt :: RunHook(t, hook, pkt) == RunHook(u, hook, pkt)
  }

  // ----- any history against any policy

  /** The history marks just what goes to the tunnel, and with the policy's mark. */
  ghost predicate MarksAs(h: seq<Policy>, q: Policy)
    requires h != []
  {
    forall a: Addr ::
      (Spared(h, a) <==> !GoesToTunnel(q, a)) && (!Spared(h, a) ==> MarkBefore(h, a) == MarkOf(q))
  }

  /** Prerouting of any history's table is right for a policy exactly if it spares what the policy does and else
      leaves the policy's mark. */
  lemma PileMarksIff(h: seq<Policy>, q: Policy)
    requires Pile(h) && Renderable(q)
    ensures SameAtHook(PileTable(h), RenderedTable(q), "prerouting") <==> MarksAs(h, q)
  {
    hide RunHook, PileTable, RenderedTable, GoesToTunnel, Excludes, NetsCover, Apart, Renderable, MarkOf, MarkLeft;
    forall pkt
      ensures RunHook(PileTable(h), "prerouting", pkt) == RunHook(RenderedTable(q), "prerouting", pkt)
         <==> pkt.dst.V6? || SameMark(h, q, pkt.dst.a, pkt.mark)
    {
      PilePrerouting(h, pkt);
      PreroutingMeaning(q, pkt);
    }
    if SameAtHook(PileTable(h), RenderedTable(q), "prerouting") {
      forall a: Addr, m: Mark ensures SameMark(h, q, a, m) {
        var pkt := Packet(V4(a), "", m);
        assert RunHook(PileTable(h), "prerouting", pkt) == RunHook(RenderedTable(q), "prerouting", pkt);
      }
    }
    SameMarksIff(h, q);
  }

  ghost predicate SameMark(h: seq<Policy>, q: Policy, a: Addr, m: Mark) {
    MarkLeft(h, a, m) == if GoesToTunnel(q, a) then MarkOf(q) else m
  }

  lemma SameMarksIff(h: seq<Policy>, q: Policy)
    requires h != []
    ensures (forall a: Addr, m: Mark :: SameMark(h, q, a, m)) <==> MarksAs(h, q)
  {
    hide GoesToTunnel, Spared, MarkOf, MarkLeft, MarkBefore;
    forall a: Addr, m: Mark
      ensures Spared(h, a) ==> MarkLeft(h, a, m) == m
      ensures !Spared(h, a) ==> MarkLeft(h, a, m) == MarkBefore(h, a)
    {
      MarkLeftIff(h, a, m);
    }
    if forall a: Addr, m: Mark :: SameMark(h, q, a, m) {
      forall a: Addr
        ensures (Spared(h, a) <==> !GoesToTunnel(q, a))
             && (!Spared(h, a) ==> MarkBefore(h, a) == MarkOf(q))
      {
        assert SameMark(h, q, a, 0) && SameMark(h, q, a, 1);
      }
    }
    if MarksAs(h, q) {
      forall a: Addr, m: Mark ensures SameMark(h, q, a, m) {
        assert Spared(h, a) <==> !GoesToTunnel(q, a);
      }
    }
  }

  /** Forward of any history's table is right for a policy exactly if the united home networks are the policy's. */
  lemma PileForwardIff(h: seq<Policy>, q: Policy)
    requires Pile(h) && Renderable(q)
    ensures SameAtHook(PileTable(h), RenderedTable(q), "forward")
       <==> forall a: Addr :: NetsCover(HomeLans(h), a) <==> NetsCover(HomeOf(q), a)
  {
    hide RunHook, PileTable, RenderedTable, Pile, Renderable, NetsCover, HomeLans;
    forall pkt
      ensures RunHook(PileTable(h), "forward", pkt) == RunHook(RenderedTable(q), "forward", pkt)
         <==> (IsolatedBy(h, pkt) <==> Isolated(q, pkt))
    {
      PileForward(h, pkt);
      ForwardMeaning(q, pkt);
    }
    NothingCovered();
    forall pkt ensures Isolated(q, pkt) <==> pkt.iif == DEFAULT_CLIENTS_IFACE && pkt.dst.V4? && NetsCover(HomeOf(q), pkt.dst.a) {
    }
    if SameAtHook(PileTable(h), RenderedTable(q), "forward") {
      forall a: Addr ensures NetsCover(HomeLans(h), a) <==> NetsCover(HomeOf(q), a) {
        var pkt := Packet(V4(a), DEFAULT_CLIENTS_IFACE, 0);
        assert RunHook(PileTable(h), "forward", pkt) == RunHook(RenderedTable(q), "forward", pkt);
        assert IsolatedBy(h, pkt) <==> Isolated(q, pkt);
      }
    }
  }

  lemma NothingCovered()
    ensures forall a: Addr :: !NetsCover([], a)
  {
  }

  // ----- coverage of joined lists

  lemma SameMaskedSameCover(a: seq<Net>, b: seq<Net>, x: Addr)
    requires AllNet4(a) && AllNet4(b) && MaskedSet(a) == MaskedSet(b)
    ensures NetsCover(a, x) <==> NetsCover(b, x)
  {
    InMaskedSet(a, x);
    InMaskedSet(b, x);
  }

  lemma CoverConcat(a: seq<Net>, b: seq<Net>, x: Addr)
    ensures NetsCover(a + b, x) <==> NetsCover(a, x) || NetsCover(b, x)
  {
    hide In;
    var c := a + b;
    if i :| 0 <= i < |a| && a[i].Net4? && In(x, a[i].p) {
      assert c[i].Net4? && In(x, c[i].p);
    }
    if i :| 0 <= i < |b| && b[i].Net4? && In(x, b[i].p) {
      assert c[|a| + i].Net4? && In(x, c[|a| + i].p);
    }
    if i :| 0 <= i < |c| && c[i].Net4? && In(x, c[i].p) {
      assert if i < |a| then a[i].Net4? && In(x, a[i].p) else b[i - |a|].Net4? && In(x, b[i - |a|].p);
    }
  }

  lemma OldestLans(h: seq<Policy>, x: Addr)
    requires h != []
    ensures NetsCover(h[0].lans, x) ==> NetsCover(AllLans(h), x)
  {
    CoverConcat(h[0].lans, AllLans(h[1..]), x);
  }

  lemma HostIn(p: Prefix, a: Addr)
    requires p.bits == 32
    ensures In(a, p) <==> a == p.addr
  {
  }

  /** A recognised history: what its direct prefixes cover beyond those of the policy is single addresses. */
  lemma RecognisedDirect(h: seq<Policy>, q: Policy, a: Addr)
    requires Recognised(h, q)
    ensures NetsCover(q.directPrefixes, a) ==> NetsCover(AllDirect(h), a)
    ensures NetsCover(AllDirect(h), a) ==> NetsCover(q.directPrefixes, a) || IsHostOf(h, a)
  {
    hide In, Masked;
    var d := AllDirect(h);
    InMaskedSet(q.directPrefixes, a);
    InMaskedSet(d, a);
    if p :| p in MaskedSet(d) && In(a, p) {
      if p.bits == 32 {
        var i :| 0 <= i < |d| && Masked(d[i].p) == p;
        SameBlock(d[i].p, a);
        assert d[i].p.bits == 32 by { MaskedBits(d[i].p); }
        HostIn(d[i].p, a);
      } else {
        assert p in NonHosts(MaskedSet(d));
      }
    }
  }

  lemma MaskedBits(p: Prefix)
    ensures Masked(p).bits == p.bits
  {
  }

  /** a is a single address among the direct prefixes of the history. */
  ghost predicate IsHostOf(h: seq<Policy>, a: Addr) {
    exists i :: 0 <= i < |AllDirect(h)| && AllDirect(h)[i] == Net4(Prefix(a, 32))
  }

  lemma HostCovered(h: seq<Policy>, a: Addr)
    requires IsHostOf(h, a)
    ensures NetsCover(AllDirect(h), a)
  {
    var i :| 0 <= i < |AllDirect(h)| && AllDirect(h)[i] == Net4(Prefix(a, 32));
    HostIn(AllDirect(h)[i].p, a);
    assert In(a, AllDirect(h)[i].p);
  }

  // ----- a table that is kept

  ghost predicate OneMark(h: seq<Policy>, q: Policy) {
    forall i :: 0 <= i < |h| ==> MarkOf(h[i]) == MarkOf(q)
  }

  lemma OneMarkBefore(h: seq<Policy>, q: Policy, a: Addr)
    requires h != [] && OneMark(h, q) && !Spared(h, a)
    ensures MarkBefore(h, a) == MarkOf(q)
  {
    hide Excludes, MarkOf;
    assert FirstExcluder(h, a) > 0;
  }

  /** Every address of a wanted LAN is excluded by the oldest policy or direct, and every single direct address of the
      history is still one that the policy does not send to the tunnel. */
  ghost predicate KeptRight(h: seq<Policy>, q: Policy)
    requires h != []
  {
    && (forall a: Addr :: NetsCover(q.lans, a) ==> Spared(h, a))
    && (forall a: Addr :: IsHostOf(h, a) ==> !GoesToTunnel(q, a))
  }

  /** Soundness of the no-op decision for marking, on the table of any history. */
  lemma KeptMarksIff(h: seq<Policy>, q: Policy)
    requires Recognised(h, q) && Sound(q) && OneMark(h, q)
    ensures Renderable(q)
    ensures SameAtHook(PileTable(h), RenderedTable(q), "prerouting") <==> KeptRight(h, q)
  {
    RecognisedRenderable(h, q);
    PileMarksIff(h, q);
    assert h != [] && h[0].tunnelEndpoint == q.tunnelEndpoint;
    hide SameAtHook, PileTable, RenderedTable, MarkOf, NetsCover, Recognised, Pile, AllLans, IsHostOf, Renderable, OneMark,
      MarkBefore;
    forall a: Addr
      ensures !Spared(h, a) ==> MarkBefore(h, a) == MarkOf(q)
      ensures Excludes(h[0], a) ==> Excludes(q, a)
      ensures NetsCover(q.directPrefixes, a) ==> NetsCover(AllDirect(h), a)
      ensures NetsCover(AllDirect(h), a) ==> NetsCover(q.directPrefixes, a) || IsHostOf(h, a)
      ensures IsHostOf(h, a) ==> NetsCover(AllDirect(h), a)
    {
      RecognisedDirect(h, q, a);
      RecognisedLans(h, q, a);
      if !Spared(h, a) {
        OneMarkBefore(h, q, a);
      }
      if IsHostOf(h, a) {
        HostCovered(h, a);
      }
    }
  }

  lemma RecognisedLans(h: seq<Policy>, q: Policy, a: Addr)
    requires Recognised(h, q)
    ensures Excludes(h[0], a) ==> Excludes(q, a)
  {
    SameMaskedSameCover(AllLans(h), q.lans, a);
    OldestLans(h, a);
  }

  /** Soundness of the no-op decision for forwarding, on the table of any history: isolation was not in place or is
      still wanted. */
  lemma KeptForwardIff(h: seq<Policy>, q: Policy)
    requires Recognised(h, q) && Sound(q) && AllSound(h)
    ensures Renderable(q)
    ensures SameAtHook(PileTable(h), RenderedTable(q), "forward") <==> (AnyInbound(h) ==> InboundManaged(q))
  {
    RecognisedRenderable(h, q);
    PileForwardIff(h, q);
    NothingCovered();
    NoInbound(h);
    assert Pile(h);
    hide SameAtHook, PileTable, RenderedTable, NetsCover, Pile, Renderable;
    if InboundManaged(q) {
      forall a: Addr ensures NetsCover(HomeLans(h), a) <==> NetsCover(q.lans, a) {
        SameMaskedSameCover(HomeLans(h), q.lans, a);
      }
    } else if AnyInbound(h) {
      var a := SomeIsolated(h);
    }
  }

  ghost predicate AllSound(h: seq<Policy>) {
    forall i :: 0 <= i < |h| ==> Sound(h[i])
  }

  /** With an inbound interface in the history some address is isolated. */
  lemma {:induction false} SomeIsolated(h: seq<Policy>) returns (a: Addr)
    requires AllSound(h) && AnyInbound(h) && AllNet4(AllLans(h))
    ensures NetsCover(HomeLans(h), a)
    decreases |h|
  {
    hide In;
    InboundFirst(h);
    if InboundManaged(h[0]) {
      var n := h[0].lans[0];
      assert AllLans(h)[0] == n;
      a := n.p.addr;
      FirstCovered(h[0].lans);
    } else {
      forall i | 0 <= i < |AllLans(h[1..])| ensures AllLans(h[1..])[i].Net4? {
        assert AllLans(h)[|h[0].lans| + i] == AllLans(h[1..])[i];
      }
      a := SomeIsolated(h[1..]);
    }
    CoverConcat(HomeOf(h[0]), HomeLans(h[1..]), a);
  }

  lemma FirstCovered(nets: seq<Net>)
    requires nets != [] && nets[0].Net4?
    ensures NetsCover(nets, nets[0].p.addr)
  {
    assert In(nets[0].p.addr, nets[0].p);
  }

  /** The decision on a table rendered for one policy: right for marking exactly if each of its single direct addresses
      is still kept from the tunnel. */
  lemma NoOpMarksIff(p: Policy, q: Policy)
    requires Renderable(p) && Sound(q) && SemanticMatch(Listing(RenderedTable(p)), NftOf(q))
    ensures Renderable(q)
    ensures SameAtHook(RenderedTable(p), RenderedTable(q), "prerouting")
       <==> forall a: Addr :: Net4(Prefix(a, 32)) in p.directPrefixes ==> !GoesToTunnel(q, a)
  {
    PileOne(p);
    One(p);
    MatchIff([p], q);
    KeptMarksIff([p], q);
    hide SameAtHook, RenderedTable, PileTable, Pile, GoesToTunnel, NetsCover, SemanticMatch, Listing, NftOf;
    forall a: Addr ensures NetsCover(q.lans, a) ==> Spared([p], a) {
      SameMaskedSameCover(p.lans, q.lans, a);
    }
    assert forall a: Addr :: IsHostOf([p], a) <==> Net4(Prefix(a, 32)) in p.directPrefixes;
    assert RenderedTable(p) == PileTable([p]) by { RenderedIsPile(p); }
  }

  lemma RenderedIsPile(p: Policy)
    requires Renderable(p)
    ensures Pile([p]) && RenderedTable(p) == PileTable([p])
  {
    PileOne(p);
  }

  lemma NoOpForwardsIff(p: Policy, q: Policy)
    requires Renderable(p) && Sound(p) && Sound(q) && SemanticMatch(Listing(RenderedTable(p)), NftOf(q))
    ensures Renderable(q)
    ensures SameAtHook(RenderedTable(p), RenderedTable(q), "forward") <==> (InboundManaged(p) ==> InboundManaged(q))
  {
    RenderedIsPile(p);
    One(p);
    MatchIff([p], q);
    KeptForwardIff([p], q);
  }

  // ----- a policy piled on a table that could not be listed

  /** Off the policy's direct prefixes, what the older history spares is just what the policy excludes. */
  ghost predicate PiledRight(h: seq<Policy>, q: Policy)
    requires h != []
  {
    forall a: Addr :: !NetsCover(q.directPrefixes, a) ==> (Spared(h, a) <==> Excludes(q, a))
  }

  lemma LastRenderable(h: seq<Policy>, p: Policy)
    requires Pile(h) && Pile(h + [p])
    ensures Renderable(p)
  {
    LastIs4(h, p);
    LongerIff(h, p);
    hide MaskedSet, Apart;
    ApartParts(MaskedSet(AllDirect(h)), MaskedSet(p.directPrefixes));
    ApartParts(MaskedSet(HomeLans(h)), MaskedSet(HomeOf(p)));
  }

  /** An apply that could not list the table is right for marking exactly under that condition. */
  lemma PiledMarksIff(h: seq<Policy>, q: Policy)
    requires Pile(h) && Pile(h + [q]) && OneMark(h, q)
    ensures Renderable(q)
    ensures SameAtHook(PileTable(h + [q]), RenderedTable(q), "prerouting") <==> PiledRight(h, q)
  {
    LastRenderable(h, q);
    PileMarksIff(h + [q], q);
    assert h != [] && OneMark(h + [q], q);
    hide SameAtHook, PileTable, RenderedTable, Pile, Renderable, Spared, MarkBefore, OneMark, Excludes, NetsCover;
    forall a: Addr
      ensures Spared(h + [q], a) <==> Spared(h, a) || NetsCover(q.directPrefixes, a)
      ensures !Spared(h + [q], a) ==> MarkBefore(h + [q], a) == MarkOf(q)
    {
      SparedSnoc(h, q, a);
      if !Spared(h + [q], a) {
        OneMarkBefore(h + [q], q, a);
      }
    }
  }

  lemma SparedSnoc(h: seq<Policy>, q: Policy, a: Addr)
    requires h != []
    ensures Spared(h + [q], a) <==> Spared(h, a) || NetsCover(q.directPrefixes, a)
  {
    Snoc(h, q);
    CoverConcat(AllDirect(h), q.directPrefixes, a);
    assert (h + [q])[0] == h[0];
    hide NetsCover, AllDirect, Excludes;
  }

  /** The same for forwarding: older isolation stays, so it must be part of what the policy wants. */
  lemma PiledForwardIff(h: seq<Policy>, q: Policy)
    requires Pile(h) && Pile(h + [q]) && AllSound(h)
    ensures Renderable(q)
    ensures SameAtHook(PileTable(h + [q]), RenderedTable(q), "forward")
       <==> if InboundManaged(q) then forall a: Addr :: NetsCover(HomeLans(h), a) ==> NetsCover(q.lans, a)
            else !AnyInbound(h)
  {
    LastRenderable(h, q);
    PileForwardIff(h + [q], q);
    Snoc(h, q);
    NothingCovered();
    NoInbound(h);
    assert AllNet4(AllLans(h));
    hide SameAtHook, PileTable, RenderedTable, NetsCover, Pile, Renderable, HomeLans;
    forall a: Addr ensures NetsCover(HomeLans(h + [q]), a) <==> NetsCover(HomeLans(h), a) || NetsCover(HomeOf(q), a) {
      CoverConcat(HomeLans(h), HomeOf(q), a);
    }
    if AnyInbound(h) {
      var a := SomeIsolated(h);
    }
  }

  // ----- where the decision is wrong

  const NO_WIREGUARD: WireGuardConfig := WireGuardConfig("", 0, NoNet, WireGuardPeer("", "", None, 0))

  function PolicyWith(direct: seq<Net>, lans: seq<Net>): Policy {
    Policy(direct, "", Ip4(0x0102_0304), lans, 0, 0, 0, true, NO_WIREGUARD, NO_WIREGUARD)
  }

  /** Dropping the last single direct address from the policy is taken for no change: it stays direct. */
  lemma LostHostExample()
    ensures var p, q := PolicyWith([Net4(Prefix(0x0A00_0001, 32))], []), PolicyWith([], []);
            && Renderable(p) && Sound(q) && SemanticMatch(Listing(RenderedTable(p)), NftOf(q))
            && !GoesToTunnel(p, 0x0A00_0001) && GoesToTunnel(q, 0x0A00_0001)
  {
    var p, q := PolicyWith([Net4(Prefix(0x0A00_0001, 32))], []), PolicyWith([], []);
    assert MaskedSet(p.directPrefixes) == {Masked(p.directPrefixes[0].p)};
    assert Renderable(p);
    hide RenderedTable;
    MatchOneIff(p, q);
    assert NonHosts(MaskedSet(p.directPrefixes)) == {} == MaskedSet(q.directPrefixes);
    assert MaskedSet(p.lans) == MaskedSet(q.lans);
    HostIn(p.directPrefixes[0].p, 0x0A00_0001);
    assert NetsCover(p.directPrefixes, 0x0A00_0001);
  }

  /** Removing the inbound interface from any policy that lists as written is taken for no change: its clients
      stay isolated. */
  lemma StaleIsolation(p: Policy)
    requires Renderable(p) && Sound(p) && Listable(p.directPrefixes) && Listable(p.lans) && InboundManaged(p)
    ensures var q := p.(inboundWireGuard := NO_WIREGUARD);
            && Sound(q) && Renderable(q) && SemanticMatch(Listing(RenderedTable(p)), NftOf(q))
            && !SameAtHook(RenderedTable(p), RenderedTable(q), "forward")
  {
    hide First, SemanticMatch, Listing, NftOf, RenderedTable, SameAtHook, MaskedSet, Listable, Apart;
    var q := p.(inboundWireGuard := NO_WIREGUARD);
    assert Sound(q) && Renderable(q) && MarkOf(q) == MarkOf(p);
    NoHosts(p.directPrefixes, MaskedSet(p.directPrefixes));
    MatchOneIff(p, q);
    NoOpForwardsIff(p, q);
  }

  const TEN: Prefix := Prefix(0x0A00_0000, 8)
  const HOME: Prefix := Prefix(0xC0A8_0000, 16)
  const AT_HOME: Addr := 0xC0A8_0101

  lemma ExamplePrefix(p: Prefix, size: int, x: Addr)
    requires size == Size(p.bits) && p.addr % size == 0
    ensures IsMasked(p) && Masked(p) == p && (In(x, p) <==> p.addr <= x < p.addr + size)
  {
    hide Floor, Size;
    FloorClearsHostBits(p.addr, p.bits);
  }

  lemma ExamplePrefixes()
    ensures Masked(TEN) == TEN && Masked(HOME) == HOME && IsMasked(TEN) && IsMasked(HOME)
    ensures In(AT_HOME, HOME) && !In(AT_HOME, TEN)
  {
    assert Size(24) == 0x100;
    assert Size(16) == 0x1_0000;
    assert Size(8) == 0x100_0000;
    hide Floor, Size, First, End, In, Masked, IsMasked;
    ExamplePrefix(TEN, 0x100_0000, AT_HOME);
    ExamplePrefix(HOME, 0x1_0000, AT_HOME);
  }

  const NARROW: Policy := PolicyWith([], [Net4(TEN)])
  const WIDE: Policy := PolicyWith([], [Net4(TEN), Net4(HOME)])

  lemma ExamplePolicies()
    ensures NARROW.directPrefixes == WIDE.directPrefixes == []
    ensures NARROW.lans == [Net4(TEN)] && WIDE.lans == [Net4(TEN), Net4(HOME)]
    ensures NARROW.tunnelEndpoint == WIDE.tunnelEndpoint == Ip4(0x0102_0304) && AT_HOME != 0x0102_0304
    ensures !InboundManaged(NARROW) && !InboundManaged(WIDE) && MarkOf(NARROW) == MarkOf(WIDE) == 1
    ensures Sound(NARROW) && Sound(WIDE) && TEN.bits < 32 && HOME.bits < 32
  {
    assert [Net4(TEN)][0].p == TEN;
  }

  lemma ExampleHistory()
    ensures AllLans([NARROW, WIDE]) == [Net4(TEN), Net4(TEN), Net4(HOME)]
    ensures AllDirect([NARROW, WIDE]) == [] && HomeLans([NARROW, WIDE]) == [] && !AnyInbound([NARROW, WIDE])
  {
    ExamplePolicies();
    hide TEN, HOME, NARROW, WIDE, InboundManaged;
    One(NARROW);
    Snoc([NARROW], WIDE);
    assert [NARROW] + [WIDE] == [NARROW, WIDE];
  }

  lemma ExampleElements()
    ensures AllNet4(AllLans([NARROW, WIDE])) && AllNet4(WIDE.lans)
    ensures MaskedSet(AllLans([NARROW, WIDE])) == {TEN, HOME} && MaskedSet(WIDE.lans) == {TEN, HOME}
  {
    ExamplePrefixes();
    ExamplePolicies();
    ExampleHistory();
    hide TEN, HOME, Masked, AllLans, NARROW, WIDE;
    var one, two := AllLans([NARROW, WIDE]), WIDE.lans;
    assert MaskedSet(one) == {Masked(one[0].p), Masked(one[1].p), Masked(one[2].p)};
    assert MaskedSet(two) == {Masked(two[0].p), Masked(two[1].p)};
  }

  lemma StuckRecognised()
    ensures Renderable(NARROW) && Renderable(WIDE) && Pile([NARROW, WIDE])
    ensures Recognised([NARROW, WIDE], WIDE)
  {
    ExamplePrefixes();
    ExamplePolicies();
    ExampleHistory();
    ExampleElements();
    MaskedSetEmpty();
    hide TEN, HOME, NARROW, WIDE, Masked, IsMasked, AllLans, AllDirect, HomeLans, MaskedSet, Apart, InboundManaged, MarkOf;
    var h := [NARROW, WIDE];
    assert h[0] == NARROW && h[1] == WIDE;
    assert NonHosts({}) == {};
    assert Listable(WIDE.lans);
  }

  lemma StuckMarks()
    ensures var h := [NARROW, WIDE]; !Spared(h, AT_HOME) && FirstExcluder(h, AT_HOME) == 1 && !GoesToTunnel(WIDE, AT_HOME)
  {
    ExamplePrefixes();
    ExamplePolicies();
    ExampleHistory();
    hide TEN, HOME, In, AllDirect, AT_HOME, NARROW, WIDE;
    var h := [NARROW, WIDE];
    assert h[1..] == [WIDE];
    assert WIDE.lans[1].Net4? && In(AT_HOME, WIDE.lans[1].p);
    assert Excludes(WIDE, AT_HOME);
    assert !Excludes(NARROW, AT_HOME);
    assert FirstExcluder([WIDE], AT_HOME) == 0;
  }

  /** A LAN that was added by an apply which could not list the table is marked for the tunnel, and every later apply of
      the same policy takes the table for right. */
  lemma StuckExample()
    ensures Sound(WIDE) && Renderable(NARROW) && Renderable(WIDE) && Pile([NARROW, WIDE])
    ensures Recognised([NARROW, WIDE], WIDE)
    ensures var pkt := Packet(V4(AT_HOME), "", 0);
            && RunHook(PileTable([NARROW, WIDE]), "prerouting", pkt) == Accept(1)
            && RunHook(RenderedTable(WIDE), "prerouting", pkt) == Accept(0)
  {
    StuckRecognised();
    StuckMarks();
    ExamplePolicies();
    var h, pkt := [NARROW, WIDE], Packet(V4(AT_HOME), "", 0);
    hide PileTable, RenderedTable, Pile, Renderable, RunHook, Recognised, Spared, FirstExcluder, GoesToTunnel, MarkLeft, Sound,
      NARROW, WIDE, MarkOf;
    assert h[0] == NARROW;
    MarkLeftIff(h, AT_HOME, 0);
    PilePrerouting(h, pkt);
    PreroutingMeaning(WIDE, pkt);
  }
}
