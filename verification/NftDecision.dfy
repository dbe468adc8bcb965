/** When the no-op decision of nftables.Reconcile is taken, and when it is right. */
module NftDecision {
  import opened Wrappers
  import opened Ipv4
  import opened CidrText
  import opened Policy
  import opened NftKernel
  import opened NftRender
  import opened NftPile
  import opened NftLive

  /** What listing the table of a history gives. */
  ghost function LiveOf(h: seq<Policy>): LiveNft
    requires Pile(h)
  {
    Listing(PileTable(h))
  }

  ghost function ListedNets(nets: seq<Net>): set<string>
    requires AllNet4(nets)
  {
    set i | 0 <= i < |nets| :: ListedPrefix(nets[i].p)
  }

  lemma LiveRules(h: seq<Policy>)
    requires Pile(h)
    ensures LiveOf(h).rules == ListedRules(PileRules(h)) && Endpoints4(h)
  {
  }

  // ----- what each look-up finds

  lemma NamedRules(p: Policy, r: LiveRule)
    ensures IsListed(p, r) && Named(r, "prerouting", "exclude-lan")
       <==> exists i :: 0 <= i < |p.lans| && r == LanListed(p.lans[i])
    ensures IsListed(p, r) && Named(r, "prerouting", "exclude-endpoint") <==> r == EndpointListed(p.tunnelEndpoint)
    ensures IsListed(p, r) && Named(r, "prerouting", "mark-non-direct") <==> r == MarkListed(MarkOf(p))
    ensures IsListed(p, r) && Named(r, "forward", "isolate-inbound-from-home") <==> r == ISOLATE_LISTED && InboundManaged(p)
    ensures IsListed(p, DROP_LISTED)
  {
    hide MarkOf, InboundManaged, ListedDAddrs;
    assert |"prerouting"| != |"forward"|;
  }

  lemma LanRuleFrom(h: seq<Policy>, r: LiveRule) returns (n: Net)
    requires Pile(h) && r in LiveOf(h).rules && Named(r, "prerouting", "exclude-lan")
    ensures n in AllLans(h) && r == LanListed(n)
  {
    LiveRules(h);
    ListedIff(h, r);
    hide *;
    var i :| 0 <= i < |h| && IsListed(h[i], r);
    NamedRules(h[i], r);
    var j :| 0 <= j < |h[i].lans| && r == LanListed(h[i].lans[j]);
    n := h[i].lans[j];
    InAllLans(h, n);
  }

  lemma LanRuleIn(h: seq<Policy>, n: Net)
    requires Pile(h) && n in AllLans(h)
    ensures LanListed(n) in LiveOf(h).rules && Named(LanListed(n), "prerouting", "exclude-lan")
  {
    LiveRules(h);
    ListedIff(h, LanListed(n));
    hide *;
    InAllLans(h, n);
    var i :| 0 <= i < |h| && n in h[i].lans;
    NamedRules(h[i], LanListed(n));
  }

  lemma LanText(n: Net)
    requires n.Net4?
    ensures LanListed(n).dAddrs == [ListedPrefix(n.p)]
  {
  }

  lemma FoundAddr(rules: seq<LiveRule>, chain: string, comment: string, r: LiveRule, x: string)
    requires r in rules && Named(r, chain, comment) && x in r.dAddrs
    ensures x in DAddrsForComment(rules, chain, comment)
  {
    hide Named;
  }

  lemma ListedNetsIff(nets: seq<Net>, x: string)
    requires AllNet4(nets)
    ensures x in ListedNets(nets) <==> exists n :: n in nets && ListedPrefix(n.p) == x
  {
    hide ListedPrefix;
    if n :| n in nets && ListedPrefix(n.p) == x {
      var i :| 0 <= i < |nets| && nets[i] == n;
      assert ListedPrefix(nets[i].p) == x;
    }
  }

  lemma LanLookup(h: seq<Policy>)
    requires Pile(h)
    ensures DAddrsForComment(LiveOf(h).rules, "prerouting", "exclude-lan") == ListedNets(AllLans(h))
  {
    var lans, rules := AllLans(h), LiveOf(h).rules;
    assert AllNet4(lans) && forall n :: n in lans ==> n.Net4?;
    hide LiveOf, Named, LanListed, ListedPrefix, Pile, AllNet4, ListedNets;
    forall x ensures x in DAddrsForComment(rules, "prerouting", "exclude-lan") <==> x in ListedNets(lans) {
      ListedNetsIff(lans, x);
      if x in DAddrsForComment(rules, "prerouting", "exclude-lan") {
        var r :| r in rules && Named(r, "prerouting", "exclude-lan") && x in r.dAddrs;
        var n := LanRuleFrom(h, r);
        LanText(n);
      }
      if n :| n in lans && ListedPrefix(n.p) == x {
        LanText(n);
        LanRuleIn(h, n);
        FoundAddr(rules, "prerouting", "exclude-lan", LanListed(n), x);
      }
    }
  }

  ghost function EndpointTexts(h: seq<Policy>): set<string> {
    set i | 0 <= i < |h| :: IpString(h[i].tunnelEndpoint)
  }

  lemma EndpointRuleFrom(h: seq<Policy>, r: LiveRule) returns (i: nat)
    requires Pile(h) && r in LiveOf(h).rules && Named(r, "prerouting", "exclude-endpoint")
    ensures i < |h| && r == EndpointListed(h[i].tunnelEndpoint)
  {
    LiveRules(h);
    ListedIff(h, r);
    hide *;
    i :| 0 <= i < |h| && IsListed(h[i], r);
    NamedRules(h[i], r);
  }

  lemma EndpointRuleIn(h: seq<Policy>, i: nat)
    requires Pile(h) && i < |h|
    ensures var r := EndpointListed(h[i].tunnelEndpoint); r in LiveOf(h).rules && Named(r, "prerouting", "exclude-endpoint")
  {
    LiveRules(h);
    ListedIff(h, EndpointListed(h[i].tunnelEndpoint));
    hide *;
    NamedRules(h[i], EndpointListed(h[i].tunnelEndpoint));
  }

  lemma EndpointLookup(h: seq<Policy>)
    requires Pile(h)
    ensures DAddrsForComment(LiveOf(h).rules, "prerouting", "exclude-endpoint") == EndpointTexts(h)
  {
    var rules := LiveOf(h).rules;
    assert forall i :: 0 <= i < |h| ==> h[i].tunnelEndpoint.Ip4?;
    hide LiveOf, Named, EndpointListed, IpString, Pile;
    forall x ensures x in DAddrsForComment(rules, "prerouting", "exclude-endpoint") <==> x in EndpointTexts(h) {
      if x in DAddrsForComment(rules, "prerouting", "exclude-endpoint") {
        var r :| r in rules && Named(r, "prerouting", "exclude-endpoint") && x in r.dAddrs;
        var i := EndpointRuleFrom(h, r);
        EndpointText(h[i].tunnelEndpoint);
      }
      if i :| 0 <= i < |h| && IpString(h[i].tunnelEndpoint) == x {
        EndpointText(h[i].tunnelEndpoint);
        EndpointRuleIn(h, i);
        FoundAddr(rules, "prerouting", "exclude-endpoint", EndpointListed(h[i].tunnelEndpoint), x);
      }
    }
  }

  lemma EndpointText(ip: Ip)
    requires ip.Ip4?
    ensures EndpointListed(ip).dAddrs == [IpString(ip)]
  {
  }

  /** The mark rule that is looked at is that of the oldest policy. */
  lemma MarkLookup(h: seq<Policy>)
    requires Pile(h)
    ensures FirstNamed(LiveOf(h).rules, "prerouting", "mark-non-direct") == Some(MarkListed(MarkOf(h[0])))
  {
    LiveRules(h);
    ListedFirst(h);
    hide *;
    var first, mark := AllListed(h[0]), MarkListed(MarkOf(h[0]));
    forall r ensures r in first && Named(r, "prerouting", "mark-non-direct") <==> r == mark {
      PolicyListedIff(h[0], r);
      NamedRules(h[0], r);
    }
    FirstNamedUnique(first, mark, "prerouting", "mark-non-direct");
    FirstNamedConcat(first, ListedRules(PileRules(h[1..])), "prerouting", "mark-non-direct");
  }

  lemma DropLookup(h: seq<Policy>)
    requires Pile(h)
    ensures CountComments(LiveOf(h).rules, "prerouting", "drop-ipv6") >= 1
  {
    LiveRules(h);
    assert h != [] && Named(DROP_LISTED, "prerouting", "drop-ipv6");
    hide *;
    ListedIff(h, DROP_LISTED);
    NamedRules(h[0], DROP_LISTED);
    CountIff(LiveOf(h).rules, "prerouting", "drop-ipv6");
  }

  lemma IsolateLookup(h: seq<Policy>)
    requires Pile(h) && AnyInbound(h)
    ensures FirstNamed(LiveOf(h).rules, "forward", "isolate-inbound-from-home") == Some(ISOLATE_LISTED)
  {
    LiveRules(h);
    var rules := LiveOf(h).rules;
    var k :| 0 <= k < |h| && InboundManaged(h[k]);
    hide *;
    forall r ensures r in rules && Named(r, "forward", "isolate-inbound-from-home") <==> r == ISOLATE_LISTED {
      ListedIff(h, r);
      NamedRules(h[k], r);
      if i :| 0 <= i < |h| && IsListed(h[i], r) {
        NamedRules(h[i], r);
      }
    }
    FirstNamedUnique(rules, ISOLATE_LISTED, "forward", "isolate-inbound-from-home");
  }

  lemma LiveShape(h: seq<Policy>)
    requires Pile(h)
    ensures var live := LiveOf(h);
            && RU_NETS in live.sets && live.sets[RU_NETS] == ListedElements(MaskedSet(AllDirect(h)))
            && (HOME_NETS in live.sets <==> AnyInbound(h))
            && (AnyInbound(h) ==> live.sets[HOME_NETS] == ListedElements(MaskedSet(HomeLans(h))))
            && "prerouting" in live.chains && live.chains["prerouting"] == PREROUTING_DECL
            && ("forward" in live.chains <==> AnyInbound(h))
            && (AnyInbound(h) ==> live.chains["forward"] == FORWARD_DECL)
  {
    hide PileRules, ListedRules, MaskedSet, AllDirect, AllLans, HomeLans, Apart, AnyInbound;
    assert |RU_NETS| != |HOME_NETS|;
    assert |"prerouting"| != |"forward"|;
  }

  // ----- the decision, in texts

  /** The comparisons that remain once the look-ups are known; h made the table, q is wanted. */
  ghost predicate TextsMatch(h: seq<Policy>, q: Policy)
    requires Pile(h)
  {
    && ListedElements(MaskedSet(AllDirect(h))) == NetTexts(q.directPrefixes)
    && ListedNets(AllLans(h)) == NetTexts(q.lans)
    && (forall i :: 0 <= i < |h| ==> h[i].tunnelEndpoint == q.tunnelEndpoint)
    && MarkOf(h[0]) == MarkOf(q)
    && (InboundManaged(q) ==> AnyInbound(h) && ListedElements(MaskedSet(HomeLans(h))) == NetTexts(q.lans))
  }

  lemma RuNetsMatch(h: seq<Policy>, q: Policy)
    requires Pile(h)
    ensures SetMatches(LiveOf(h), RuNetsSet(q))
       <==> ListedElements(MaskedSet(AllDirect(h))) == NetTexts(q.directPrefixes)
  {
    LiveShape(h);
    hide LiveOf, Pile, ListedElements, MaskedSet, NetTexts, StringSetsEqual;
    StringSetsEqualIff(NetTexts(q.directPrefixes), LiveOf(h).sets[RU_NETS]);
  }

  lemma HomeNetsMatch(h: seq<Policy>, q: Policy)
    requires Pile(h)
    ensures SetMatches(LiveOf(h), HomeNetsSet(q))
       <==> AnyInbound(h) && ListedElements(MaskedSet(HomeLans(h))) == NetTexts(q.lans)
  {
    LiveShape(h);
    hide LiveOf, Pile, ListedElements, MaskedSet, NetTexts, StringSetsEqual, AnyInbound;
    if AnyInbound(h) {
      StringSetsEqualIff(NetTexts(q.lans), LiveOf(h).sets[HOME_NETS]);
    }
  }

  lemma EndpointTextsIff(h: seq<Policy>, ip: Ip)
    requires h != []
    ensures StringSetsEqual(EndpointTexts(h), IpTexts([ip])) <==> forall i :: 0 <= i < |h| ==> h[i].tunnelEndpoint == ip
  {
    hide IpString;
    assert IpTexts([ip]) == {IpString(ip)} by {
      assert ip in [ip];
    }
    StringSetsEqualIff(EndpointTexts(h), {IpString(ip)});
    if EndpointTexts(h) == {IpString(ip)} {
      forall i | 0 <= i < |h| ensures h[i].tunnelEndpoint == ip {
        assert IpString(h[i].tunnelEndpoint) in EndpointTexts(h);
        IpStringInjective(h[i].tunnelEndpoint, ip);
      }
    }
    if forall i :: 0 <= i < |h| ==> h[i].tunnelEndpoint == ip {
      assert IpString(h[0].tunnelEndpoint) in EndpointTexts(h);
    }
  }

  lemma MarkRuleLookups(rules: seq<LiveRule>, q: Policy)
    requires Sound(q)
    ensures LiveHasRule(rules, "prerouting", MarkRule(q))
       <==> && StringSetsEqual(DAddrsForComment(rules, "prerouting", "exclude-lan"), NetTexts(q.lans))
            && StringSetsEqual(DAddrsForComment(rules, "prerouting", "exclude-endpoint"), IpTexts([q.tunnelEndpoint]))
            && match FirstNamed(rules, "prerouting", "mark-non-direct")
               case Some(r) => r.mark == Some(MarkOf(q))
               case None => false
  {
    hide StringSetsEqual, DAddrsForComment, NetTexts, IpTexts, FirstNamed, MarkOf;
  }

  lemma MarkRuleMatch(h: seq<Policy>, q: Policy)
    requires Pile(h) && Sound(q)
    ensures LiveHasRule(LiveOf(h).rules, "prerouting", MarkRule(q))
       <==> && ListedNets(AllLans(h)) == NetTexts(q.lans)
            && (forall i :: 0 <= i < |h| ==> h[i].tunnelEndpoint == q.tunnelEndpoint) && MarkOf(h[0]) == MarkOf(q)
  {
    assert MarkListed(MarkOf(h[0])).mark == Some(MarkOf(h[0]));
    assert h != [] && AllNet4(AllLans(h));
    hide *;
    MarkRuleLookups(LiveOf(h).rules, q);
    LanLookup(h);
    EndpointLookup(h);
    MarkLookup(h);
    StringSetsEqualIff(ListedNets(AllLans(h)), NetTexts(q.lans));
    EndpointTextsIff(h, q.tunnelEndpoint);
  }

  lemma PreroutingMatch(h: seq<Policy>, q: Policy)
    requires Pile(h) && Sound(q)
    ensures ChainMatches(LiveOf(h), PreroutingChain(q)) <==> LiveHasRule(LiveOf(h).rules, "prerouting", MarkRule(q))
  {
    LiveShape(h);
    DropLookup(h);
    assert LiveHasRule(LiveOf(h).rules, "prerouting", DropIPv6Rule());
    hide LiveOf, LiveHasRule, DropIPv6Rule, MarkRule, Pile, Sound;
    var chain := PreroutingChain(q);
    assert chain.rules[0] == DropIPv6Rule() && chain.rules[1] == MarkRule(q) && |chain.rules| == 2;
  }

  lemma ForwardMatch(h: seq<Policy>)
    requires Pile(h)
    ensures ChainMatches(LiveOf(h), ForwardChain()) <==> AnyInbound(h)
  {
    LiveShape(h);
    if AnyInbound(h) {
      IsolateLookup(h);
      hide LiveOf, Pile, AnyInbound;
      assert LiveHasRule(LiveOf(h).rules, "forward", IsolateRule());
    }
  }

  lemma MatchParts(live: LiveNft, q: Policy)
    ensures SemanticMatch(live, NftOf(q))
       <==> && SetMatches(live, RuNetsSet(q)) && ChainMatches(live, PreroutingChain(q))
            && (InboundManaged(q) ==> SetMatches(live, HomeNetsSet(q)) && ChainMatches(live, ForwardChain()))
  {
    hide SetMatches, ChainMatches, RuNetsSet, HomeNetsSet, PreroutingChain, ForwardChain;
    var sets, chains := NftOf(q).sets, NftOf(q).chains;
    assert sets[0] == RuNetsSet(q) && (InboundManaged(q) ==> |sets| == 2 && sets[1] == HomeNetsSet(q));
    assert chains[0] == PreroutingChain(q) && (InboundManaged(q) ==> |chains| == 2 && chains[1] == ForwardChain());
  }

  // ----- the decision on any listing

  /** The listing shows a set with exactly the texts of these prefixes. */
  ghost predicate ShowsSet(live: LiveNft, name: string, nets: seq<Net>) {
    name in live.sets && live.sets[name] == set n | n in nets :: NetString(n)
  }

  /** The listing shows what marks the packets of a policy: the prerouting chain as declared, the rule against IPv6, the
      exclusions of exactly the LANs and the endpoint, and the mark in the first rule that marks. */
  ghost predicate ShowsMarking(live: LiveNft, q: Policy) {
    && "prerouting" in live.chains && live.chains["prerouting"] == ChainDecl("filter", "prerouting", -150, "accept")
    && (exists r :: r in live.rules && r.chain == "prerouting" && r.comment == "drop-ipv6")
    && HasOperands(live.rules, "prerouting", "exclude-lan", set n | n in q.lans :: NetString(n))
    && HasOperands(live.rules, "prerouting", "exclude-endpoint", {IpString(q.tunnelEndpoint)})
    && exists i :: && FirstAt(live.rules, i, "prerouting", "mark-non-direct")
                   && live.rules[i].mark == Some(if q.mark == 0 then 1 else q.mark)
  }

  /** It shows what isolates the inbound clients: the forward chain as declared, and their interface and the home networks
      in the first rule that isolates. */
  ghost predicate ShowsIsolation(live: LiveNft) {
    && "forward" in live.chains && live.chains["forward"] == ChainDecl("filter", "forward", 0, "accept")
    && exists i :: && FirstAt(live.rules, i, "forward", "isolate-inbound-from-home")
                   && "wg-clients" in live.rules[i].iifNames && "home_nets" in live.rules[i].setNames
  }

  lemma ShowsSetIff(live: LiveNft, s: NftSetSpec)
    ensures SetMatches(live, s) <==> ShowsSet(live, s.name, s.elements)
  {
    hide NetString, StringSetsEqual;
    if s.name in live.sets {
      StringSetsEqualIff(NetTexts(s.elements), live.sets[s.name]);
    }
  }

  lemma ShowsMarkingIff(live: LiveNft, q: Policy)
    requires Sound(q)
    ensures ChainMatches(live, PreroutingChain(q)) <==> ShowsMarking(live, q)
  {
    var chain := PreroutingChain(q);
    assert chain.rules[0] == DropIPv6Rule() && chain.rules[1] == MarkRule(q) && |chain.rules| == 2;
    assert (set ip | ip in [q.tunnelEndpoint] :: IpString(ip)) == {IpString(q.tunnelEndpoint)} by {
      assert q.tunnelEndpoint in [q.tunnelEndpoint];
    }
    HasRuleIff(live.rules, "prerouting", DropIPv6Rule());
    HasRuleIff(live.rules, "prerouting", MarkRule(q));
    hide LiveHasRule, HasOperands, FirstAt, NetString, IpString;
  }

  lemma ShowsIsolationIff(live: LiveNft)
    ensures ChainMatches(live, ForwardChain()) <==> ShowsIsolation(live)
  {
    var chain := ForwardChain();
    assert chain.rules[0] == IsolateRule() && |chain.rules| == 1;
    assert |"isolate-inbound-from-home"| != |"mark-non-direct"|;
    HasRuleIff(live.rules, "forward", IsolateRule());
    hide LiveHasRule, HasOperands, FirstAt, NetString, IpString;
  }

  /** The no-op decision on every listing whatever: it is taken exactly when the listing shows the direct prefixes, the
      marking and, with an inbound interface, the home networks and the isolation. */
  lemma LiveMatchIff(live: LiveNft, q: Policy)
    requires Sound(q)
    ensures SemanticMatch(live, NftOf(q))
       <==> && ShowsSet(live, "ru_nets", q.directPrefixes) && ShowsMarking(live, q)
            && (q.inboundWireGuard.privateKey != "" ==> ShowsSet(live, "home_nets", q.lans) && ShowsIsolation(live))
  {
    ShowsSetIff(live, RuNetsSet(q));
    ShowsSetIff(live, HomeNetsSet(q));
    ShowsMarkingIff(live, q);
    ShowsIsolationIff(live);
    MatchParts(live, q);
    hide SemanticMatch, SetMatches, ChainMatches, ShowsSet, ShowsMarking, ShowsIsolation, NftOf, PreroutingChain, ForwardChain,
      Sound;
  }

  // ----- the decision on the tables that applies leave

  lemma MatchIsTexts(h: seq<Policy>, q: Policy)
    requires Pile(h) && Sound(q)
    ensures SemanticMatch(LiveOf(h), NftOf(q)) <==> TextsMatch(h, q)
  {
    RuNetsMatch(h, q);
    HomeNetsMatch(h, q);
    PreroutingMatch(h, q);
    MarkRuleMatch(h, q);
    ForwardMatch(h);
    MatchParts(LiveOf(h), q);
    hide LiveOf, SetMatches, ChainMatches, RuNetsSet, HomeNetsSet, PreroutingChain, ForwardChain, ListedNets, NetTexts,
      ListedElements, MaskedSet, Pile, Sound, SemanticMatch, NftOf, AllLans, AllDirect, HomeLans, LiveHasRule;
  }

  // ----- the decision, in prefixes

  /** Prefixes that the listing shows as they are written: masked, and not a single address. */
  ghost predicate Listable(nets: seq<Net>) {
    forall i :: 0 <= i < |nets| ==> nets[i].Net4? && IsMasked(nets[i].p) && nets[i].p.bits < 32
  }

  ghost function NonHosts(ps: set<Prefix>): set<Prefix> {
    set p | p in ps && p.bits < 32
  }

  lemma ListableText(nets: seq<Net>, x: string)
    requires Listable(nets)
    ensures x in NetTexts(nets) <==> exists p :: p in MaskedSet(nets) && PrefixString(p) == x
  {
    hide PrefixString;
    if x in NetTexts(nets) {
      var n :| n in nets && NetString(n) == x;
      var i :| 0 <= i < |nets| && nets[i] == n;
      assert Masked(nets[i].p) in MaskedSet(nets);
    }
    if p :| p in MaskedSet(nets) && PrefixString(p) == x {
      var i :| 0 <= i < |nets| && Masked(nets[i].p) == p;
      assert NetString(nets[i]) == x && nets[i] in nets;
    }
  }

  /** A set of texts that are all printed prefixes can only be wanted by a listable list. */
  lemma PrintedSetsEqual(ps: set<Prefix>, nets: seq<Net>)
    requires forall p :: p in ps ==> IsMasked(p) && p.bits < 32
    ensures (set p | p in ps :: PrefixString(p)) == NetTexts(nets) <==> Listable(nets) && ps == MaskedSet(nets)
  {
    var texts := set p | p in ps :: PrefixString(p);
    if texts == NetTexts(nets) {
      TextsGiveNets(ps, nets);
    }
    if Listable(nets) && ps == MaskedSet(nets) {
      hide PrefixString;
      forall x ensures x in texts <==> x in NetTexts(nets) {
        ListableText(nets, x);
      }
    }
  }

  lemma TextsGiveNets(ps: set<Prefix>, nets: seq<Net>)
    requires forall p :: p in ps ==> IsMasked(p) && p.bits < 32
    requires (set p | p in ps :: PrefixString(p)) == NetTexts(nets)
    ensures Listable(nets) && ps == MaskedSet(nets)
  {
    hide PrefixString;
    var texts := set p | p in ps :: PrefixString(p);
    forall i | 0 <= i < |nets| ensures nets[i].Net4? && nets[i].p in ps {
      assert NetString(nets[i]) in NetTexts(nets);
      var p :| p in ps && PrefixString(p) == NetString(nets[i]);
      NetStringInjective(nets[i], Net4(p));
    }
    forall p | p in ps ensures p in MaskedSet(nets) {
      assert PrefixString(p) in texts;
      var n :| n in nets && NetString(n) == PrefixString(p);
      NetStringInjective(n, Net4(p));
      var i :| 0 <= i < |nets| && nets[i] == n;
      assert Masked(nets[i].p) == p;
    }
    assert forall p :: p in MaskedSet(nets) ==> p in ps;
  }

  lemma MaskedSetIsMasked(nets: seq<Net>)
    requires AllNet4(nets)
    ensures forall p :: p in MaskedSet(nets) ==> IsMasked(p)
  {
    forall i | 0 <= i < |nets| ensures IsMasked(Masked(nets[i].p)) {
      MaskedIsMasked(nets[i].p);
    }
  }

  lemma ElementsMatch(have: seq<Net>, want: seq<Net>)
    requires AllNet4(have)
    ensures ListedElements(MaskedSet(have)) == NetTexts(want)
       <==> Listable(want) && NonHosts(MaskedSet(have)) == MaskedSet(want)
  {
    MaskedSetIsMasked(have);
    hide PrefixString, MaskedSet;
    var ps := NonHosts(MaskedSet(have));
    assert ListedElements(MaskedSet(have)) == set p | p in ps :: PrefixString(p);
    PrintedSetsEqual(ps, want);
  }

  /** Rule operands are not skipped when they are single addresses, so those can never match a wanted prefix. */
  lemma OperandsMatch(have: seq<Net>, want: seq<Net>)
    requires AllNet4(have)
    ensures ListedNets(have) == NetTexts(want)
       <==> Listable(want) && MaskedSet(have) == MaskedSet(want)
  {
    MaskedSetIsMasked(have);
    if ListedNets(have) == NetTexts(want) {
      OperandsHaveSlash(have, want);
    }
    if Listable(want) && MaskedSet(have) == MaskedSet(want) {
      NoHostOperands(have, want);
    }
    if forall i :: 0 <= i < |have| ==> have[i].p.bits < 32 {
      ListedNetsPlain(have);
      hide PrefixString, MaskedSet, ListedNets;
      PrintedSetsEqual(MaskedSet(have), want);
    }
  }

  lemma ListedNetsPlain(have: seq<Net>)
    requires AllNet4(have) && forall i :: 0 <= i < |have| ==> have[i].p.bits < 32
    ensures ListedNets(have) == set p | p in MaskedSet(have) :: PrefixString(p)
    ensures forall p :: p in MaskedSet(have) ==> IsMasked(p) && p.bits < 32
  {
    MaskedSetIsMasked(have);
    hide PrefixString;
    var ps := MaskedSet(have);
    forall x ensures x in ListedNets(have) <==> x in set p | p in ps :: PrefixString(p) {
      if x in ListedNets(have) {
        var i :| 0 <= i < |have| && ListedPrefix(have[i].p) == x;
        assert Masked(have[i].p) in ps;
      }
      if p :| p in ps && PrefixString(p) == x {
        var i :| 0 <= i < |have| && Masked(have[i].p) == p;
        assert ListedPrefix(have[i].p) == x;
      }
    }
  }

  lemma NoHostOperands(have: seq<Net>, want: seq<Net>)
    requires AllNet4(have) && Listable(want) && MaskedSet(have) == MaskedSet(want)
    ensures forall i :: 0 <= i < |have| ==> have[i].p.bits < 32
  {
    forall i | 0 <= i < |have| ensures have[i].p.bits < 32 {
      assert Masked(have[i].p) in MaskedSet(want);
    }
  }

  lemma OperandsHaveSlash(have: seq<Net>, want: seq<Net>)
    requires AllNet4(have) && ListedNets(have) == NetTexts(want)
    ensures forall i :: 0 <= i < |have| ==> have[i].p.bits < 32
  {
    forall i | 0 <= i < |have| ensures have[i].p.bits < 32 {
      assert ListedPrefix(have[i].p) in NetTexts(want);
      var n :| n in want && NetString(n) == ListedPrefix(have[i].p);
      if have[i].p.bits == 32 {
        AddrIsNoNet(First(have[i].p), n);
      }
    }
  }

  /** The text of a single address is the text of no prefix. */
  lemma AddrIsNoNet(a: Addr, n: Net)
    ensures AddrString(a) != NetString(n)
  {
    AddrStringShape(a);
    NetStringShape(n);
    if n.Net4? {
      PrefixStringShape(n.p);
    }
  }

  /** A history is recognised as a policy: what is wanted lists as written; the direct prefixes of the whole history
      other than single addresses, its LANs and every endpoint are those wanted; so is the oldest mark; and isolation
      of just these LANs is there if it is wanted. */
  ghost predicate Recognised(h: seq<Policy>, q: Policy) {
    && Pile(h) && Listable(q.directPrefixes) && Listable(q.lans)
    && NonHosts(MaskedSet(AllDirect(h))) == MaskedSet(q.directPrefixes)
    && MaskedSet(AllLans(h)) == MaskedSet(q.lans)
    && (forall i :: 0 <= i < |h| ==> h[i].tunnelEndpoint == q.tunnelEndpoint) && MarkOf(h[0]) == MarkOf(q)
    && (InboundManaged(q) ==> AnyInbound(h) && MaskedSet(HomeLans(h)) == MaskedSet(q.lans))
  }

  /** The no-op decision on the table of a history is taken exactly when the history is recognised. */
  lemma MatchIff(h: seq<Policy>, q: Policy)
    requires Pile(h) && Sound(q)
    ensures SemanticMatch(LiveOf(h), NftOf(q)) <==> Recognised(h, q)
  {
    MatchIsTexts(h, q);
    ElementsMatch(AllDirect(h), q.directPrefixes);
    OperandsMatch(AllLans(h), q.lans);
    ElementsMatch(HomeLans(h), q.lans);
    if Listable(q.lans) && MaskedSet(AllLans(h)) == MaskedSet(q.lans) {
      HomeIsAll(h);
      NoHosts(q.lans, MaskedSet(HomeLans(h)));
    }
    hide LiveOf, SemanticMatch, NftOf, ListedElements, ListedNets, NetTexts, MaskedSet, NonHosts, Listable, AllDirect, AllLans,
      HomeLans, AnyInbound, MarkOf, Apart;
  }

  lemma NoHosts(nets: seq<Net>, ps: set<Prefix>)
    requires Listable(nets) && ps <= MaskedSet(nets)
    ensures NonHosts(ps) == ps
  {
    forall p | p in ps ensures p.bits < 32 {
      assert p in MaskedSet(nets);
    }
  }

  lemma {:induction false} HomeIsAll(h: seq<Policy>)
    requires AllNet4(AllLans(h)) && AllNet4(HomeLans(h))
    ensures MaskedSet(HomeLans(h)) <= MaskedSet(AllLans(h))
  {
    forall i | 0 <= i < |HomeLans(h)| ensures Masked(HomeLans(h)[i].p) in MaskedSet(AllLans(h)) {
      HomeInAll(h, HomeLans(h)[i]);
      var j :| 0 <= j < |AllLans(h)| && AllLans(h)[j] == HomeLans(h)[i];
      assert Masked(AllLans(h)[j].p) in MaskedSet(AllLans(h));
    }
  }

  lemma {:induction false} HomeInAll(h: seq<Policy>, n: Net)
    ensures n in HomeLans(h) ==> n in AllLans(h)
  {
    if h != [] {
      HomeInAll(h[1..], n);
    }
  }

  /** The decision on the table rendered for one policy. */
  lemma MatchOneIff(p: Policy, q: Policy)
    requires Renderable(p) && Sound(q)
    ensures SemanticMatch(Listing(RenderedTable(p)), NftOf(q))
       <==> && Listable(q.directPrefixes) && NonHosts(MaskedSet(p.directPrefixes)) == MaskedSet(q.directPrefixes)
            && Listable(q.lans) && MaskedSet(p.lans) == MaskedSet(q.lans)
            && p.tunnelEndpoint == q.tunnelEndpoint && MarkOf(p) == MarkOf(q)
            && (InboundManaged(q) ==> InboundManaged(p))
  {
    PileOne(p);
    One(p);
    MatchIff([p], q);
    hide SemanticMatch, Listing, NftOf, PileTable, MaskedSet, NonHosts, Listable, AllDirect, AllLans, HomeLans, MarkOf;
    assert [p][0] == p;
  }

  /** A table rendered for a policy is recognised as that policy's exactly if its direct prefixes and LANs list as
      written: a host bit or a single address makes every apply a change. */
  lemma SelfMatchIff(p: Policy)
    requires Renderable(p) && Sound(p)
    ensures SemanticMatch(Listing(RenderedTable(p)), NftOf(p)) <==> Listable(p.directPrefixes) && Listable(p.lans)
  {
    MatchOneIff(p, p);
    if Listable(p.directPrefixes) {
      NoHosts(p.directPrefixes, MaskedSet(p.directPrefixes));
    }
  }

  /** What is recognised is renderable. */
  lemma RecognisedRenderable(h: seq<Policy>, q: Policy)
    requires Recognised(h, q) && Sound(q)
    ensures Renderable(q)
  {
    hide Masked, Disjoint;
    assert MaskedSet(q.directPrefixes) <= MaskedSet(AllDirect(h));
    SubsetApart(MaskedSet(q.directPrefixes), MaskedSet(AllDirect(h)));
    assert q.tunnelEndpoint == h[0].tunnelEndpoint;
  }

  lemma SubsetApart(a: set<Prefix>, b: set<Prefix>)
    requires a <= b && Apart(b)
    ensures Apart(a)
  {
    hide Disjoint;
  }
}
