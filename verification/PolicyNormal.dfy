/** Canonical form of a desired state, and the semantic equality built on it. */
module PolicyNormal {
  import opened Wrappers
  import opened Ipv4
  import opened Text
  import opened Sorting
  import opened Policy
  import opened NftKernel
  import opened NftRender
  import opened NftPile
  import opened NftMeaning

  // ----- the comparisons of normalize

  predicate SysctlLess(a: SysctlSpec, b: SysctlSpec) { StringLess(a.key, b.key) }

  predicate NetLess(a: Net, b: Net) { StringLess(NetString(a), NetString(b)) }

  predicate IpLess(a: Ip, b: Ip) { StringLess(IpString(a), IpString(b)) }

  predicate SetLess(a: NftSetSpec, b: NftSetSpec) { StringLess(a.name, b.name) }

  predicate ChainLess(a: NftChainSpec, b: NftChainSpec) { StringLess(a.name, b.name) }

  predicate RuleLess(a: NftRuleSpec, b: NftRuleSpec) { StringLess(a.description, b.description) }

  predicate IPRuleLess(a: IPRuleSpec, b: IPRuleSpec) {
    if a.priority != b.priority then a.priority < b.priority else a.mark < b.mark
  }

  predicate RouteLess(a: RouteSpec, b: RouteSpec) {
    if a.table != b.table then a.table < b.table
    else if a.metric != b.metric then a.metric < b.metric
    else if a.blackhole != b.blackhole then a.blackhole
    else StringLess(a.device, b.device)
  }

  lemma Orders()
    ensures StrictWeak(StringLess) && StrictWeak(SysctlLess) && StrictWeak(NetLess) && StrictWeak(IpLess)
    ensures StrictWeak(SetLess) && StrictWeak(ChainLess) && StrictWeak(RuleLess)
    ensures StrictWeak(IPRuleLess) && StrictWeak(RouteLess)
  {
    StringOrder();
    forall a, b ensures StringLess(a, b) ==> !StringLess(b, a) {
      StringLessTotal(a, b);
    }
    forall a, b, c ensures StringLess(a, c) ==> StringLess(a, b) || StringLess(b, c) {
      if StringLess(a, c) {
        StringLessSplits(a, b, c);
      }
    }
    hide StringLess, NetString, IpString;
  }

  ghost predicate SameRouteKeys(a: RouteSpec, b: RouteSpec) {
    a.table == b.table && a.metric == b.metric && a.blackhole == b.blackhole && a.device == b.device
  }

  /** What the orders leave open: prefixes and addresses are told apart entirely, the others by their keys alone. Rules are
      in order of priority and mark, routes of table and metric, and of two with the same a blackhole comes first. */
  lemma TiesIff()
    ensures forall a, b :: !SysctlLess(a, b) && !SysctlLess(b, a) <==> a.key == b.key
    ensures forall a, b :: !NetLess(a, b) && !NetLess(b, a) <==> a == b
    ensures forall a, b :: !IpLess(a, b) && !IpLess(b, a) <==> a == b
    ensures forall a, b :: !SetLess(a, b) && !SetLess(b, a) <==> a.name == b.name
    ensures forall a, b :: !ChainLess(a, b) && !ChainLess(b, a) <==> a.name == b.name
    ensures forall a, b :: !RuleLess(a, b) && !RuleLess(b, a) <==> a.description == b.description
    ensures forall a, b :: !IPRuleLess(a, b) && !IPRuleLess(b, a) <==> a.priority == b.priority && a.mark == b.mark
    ensures forall a, b :: !RouteLess(a, b) && !RouteLess(b, a) <==> SameRouteKeys(a, b)
    ensures forall a, b :: IPRuleLess(a, b) ==> a.priority < b.priority || (a.priority == b.priority && a.mark < b.mark)
    ensures forall a, b :: RouteLess(a, b) ==> a.table <= b.table && (a.table == b.table ==> a.metric <= b.metric)
    ensures forall a, b :: RouteLess(a, b) && a.table == b.table && a.metric == b.metric ==> (b.blackhole ==> a.blackhole)
  {
    forall a, b ensures !StringLess(a, b) && !StringLess(b, a) <==> a == b {
      StringLessTotal(a, b);
    }
    hide StringLess, NetString, IpString;
    forall a, b ensures NetString(a) == NetString(b) <==> a == b {
      if NetString(a) == NetString(b) {
        NetStringInjective(a, b);
      }
    }
    forall a, b ensures IpString(a) == IpString(b) <==> a == b {
      if IpString(a) == IpString(b) {
        IpStringInjective(a, b);
      }
    }
  }

  // ----- what normalize promises

  ghost predicate NormalSet(s: NftSetSpec, o: NftSetSpec) {
    && o.name == s.name && o.typ == s.typ
    && SortedPerm(s.flags, o.flags, StringLess) && SortedPerm(s.elements, o.elements, NetLess)
  }

  ghost predicate NormalRule(r: NftRuleSpec, o: NftRuleSpec) {
    && o == r.(excludePrefixes := o.excludePrefixes, excludeAddrs := o.excludeAddrs)
    && SortedPerm(r.excludePrefixes, o.excludePrefixes, NetLess) && SortedPerm(r.excludeAddrs, o.excludeAddrs, IpLess)
  }

  ghost predicate NormalRules(rules: seq<NftRuleSpec>, mid: seq<NftRuleSpec>) {
    |mid| == |rules| && forall i :: 0 <= i < |rules| ==> NormalRule(rules[i], mid[i])
  }

  ghost predicate NormalChain(c: NftChainSpec, o: NftChainSpec) {
    && o == c.(rules := o.rules)
    && exists mid :: NormalRules(c.rules, mid) && SortedPerm(mid, o.rules, RuleLess)
  }

  ghost predicate NormalSets(sets: seq<NftSetSpec>, mid: seq<NftSetSpec>) {
    |mid| == |sets| && forall i :: 0 <= i < |sets| ==> NormalSet(sets[i], mid[i])
  }

  ghost predicate NormalChains(chains: seq<NftChainSpec>, mid: seq<NftChainSpec>) {
    |mid| == |chains| && forall i :: 0 <= i < |chains| ==> NormalChain(chains[i], mid[i])
  }

  ghost predicate NormalPeer(s: WireGuardSpec, o: WireGuardSpec) {
    && o == s.(peer := s.peer.(allowedIPs := o.peer.allowedIPs))
    && (s.peer.allowedIPs == None <==> o.peer.allowedIPs == None)
    && (s.peer.allowedIPs.Some? ==> SortedPerm(s.peer.allowedIPs.value, o.peer.allowedIPs.value, NetLess))
  }

  /** o is a canonical form of s: every list sorted, at every level. */
  ghost predicate Normal(s: DesiredKernelState, o: DesiredKernelState) {
    && SortedPerm(s.sysctls, o.sysctls, SysctlLess)
    && SortedPerm(s.ipRules, o.ipRules, IPRuleLess)
    && SortedPerm(s.routes, o.routes, RouteLess)
    && NormalPeer(s.wireGuard, o.wireGuard) && NormalPeer(s.wireGuardClients, o.wireGuardClients)
    && o.nft.family == s.nft.family && o.nft.table == s.nft.table
    && (exists mid :: NormalSets(s.nft.sets, mid) && SortedPerm(mid, o.nft.sets, SetLess))
    && (exists mid :: NormalChains(s.nft.chains, mid) && SortedPerm(mid, o.nft.chains, ChainLess))
  }

  // ----- normalize

  /** slices.Clone and sort.Slice. */
  method SortedClone<T(!new,0)>(s: seq<T>, less: (T, T) -> bool) returns (t: seq<T>)
    requires StrictWeak(less)
    ensures SortedPerm(s, t, less)
  {
    var a := new T[|s|](i requires 0 <= i < |s| => s[i]);
    assert a[..] == s;
    SortSlice(a, less);
    t := a[..];
  }

  /** normalizeWGPeer: a nil list stays nil. */
  method NormalizeWGPeer(wg: WireGuardSpec) returns (o: WireGuardSpec)
    ensures NormalPeer(wg, o)
  {
    if wg.peer.allowedIPs == None {
      return wg;
    }
    Orders();
    var ips := SortedClone(wg.peer.allowedIPs.value, NetLess);
    o := wg.(peer := wg.peer.(allowedIPs := Some(ips)));
  }

  method NormalizeRules(rules: seq<NftRuleSpec>) returns (mid: seq<NftRuleSpec>)
    ensures NormalRules(rules, mid)
  {
    Orders();
    hide StrictWeak, SortedPerm, NetLess, IpLess;
    mid := [];
    for j := 0 to |rules|
      invariant NormalRules(rules[..j], mid)
    {
      var nets := SortedClone(rules[j].excludePrefixes, NetLess);
      var ips := SortedClone(rules[j].excludeAddrs, IpLess);
      mid := mid + [rules[j].(excludePrefixes := nets, excludeAddrs := ips)];
    }
    assert rules[..|rules|] == rules;
  }

  method NormalizeSets(sets: seq<NftSetSpec>) returns (mid: seq<NftSetSpec>)
    ensures NormalSets(sets, mid)
  {
    Orders();
    hide StrictWeak, SortedPerm, NetLess, StringLess;
    mid := [];
    for i := 0 to |sets|
      invariant NormalSets(sets[..i], mid)
    {
      var el := SortedClone(sets[i].elements, NetLess);
      var flags := SortedClone(sets[i].flags, StringLess);
      mid := mid + [NftSetSpec(sets[i].name, sets[i].typ, flags, el)];
    }
    assert sets[..|sets|] == sets;
  }

  method NormalizeChains(chains: seq<NftChainSpec>) returns (mid: seq<NftChainSpec>)
    ensures NormalChains(chains, mid)
  {
    Orders();
    hide StrictWeak, SortedPerm, RuleLess, NormalRules;
    mid := [];
    for i := 0 to |chains|
      invariant NormalChains(chains[..i], mid)
    {
      var unsorted := NormalizeRules(chains[i].rules);
      var rules := SortedClone(unsorted, RuleLess);
      mid := mid + [chains[i].(rules := rules)];
      assert NormalChain(chains[i], mid[i]);
    }
    assert chains[..|chains|] == chains;
  }

  method Normalize(s: DesiredKernelState) returns (o: DesiredKernelState)
    ensures Normal(s, o)
  {
    Orders();
    var sysctls := SortedClone(s.sysctls, SysctlLess);
    var ipRules := SortedClone(s.ipRules, IPRuleLess);
    var routes := SortedClone(s.routes, RouteLess);
    var wg := NormalizeWGPeer(s.wireGuard);
    var clients := NormalizeWGPeer(s.wireGuardClients);
    var midSets := NormalizeSets(s.nft.sets);
    var sets := SortedClone(midSets, SetLess);
    var midChains := NormalizeChains(s.nft.chains);
    var chains := SortedClone(midChains, ChainLess);
    o := DesiredKernelState(sysctls, NftSpec(s.nft.family, s.nft.table, sets, chains), ipRules, routes, wg, clients);
  }

  // ----- sorted lists with a text key

  lemma NetsUnique(s: seq<Net>, t: seq<Net>, m: seq<Net>, n: seq<Net>)
    requires SortedPerm(s, m, NetLess) && SortedPerm(t, n, NetLess)
    ensures m == n <==> multiset(s) == multiset(t)
  {
    if multiset(s) == multiset(t) {
      hide StringLess, NetString;
      forall i, j | 0 <= i < |m| && 0 <= j < |m| && !NetLess(m[i], m[j]) && !NetLess(m[j], m[i]) ensures m[i] == m[j] {
        StringLessTotal(NetString(m[i]), NetString(m[j]));
        NetStringInjective(m[i], m[j]);
      }
      SortedUnique(m, n, NetLess);
    }
  }

  lemma Single<T>(s: seq<T>, t: seq<T>, less: (T, T) -> bool)
    requires SortedPerm(s, t, less) && |s| <= 1
    ensures t == s
  {
    assert |multiset(t)| == |t| && |multiset(s)| == |s|;
    if |s| == 1 {
      assert t[0] in multiset(s);
    }
  }

  lemma Pair<T>(s: seq<T>, t: seq<T>, less: (T, T) -> bool)
    requires SortedPerm(s, t, less) && |s| == 2 && less(s[0], s[1]) && !less(s[1], s[0])
    ensures t == s
  {
    assert s == [s[0], s[1]] && |multiset(t)| == |t| && |multiset(s)| == 2;
    assert t[0] in multiset(s) && t[1] in multiset(s);
    assert t == [t[0], t[1]] && multiset(t) == multiset{t[0], t[1]};
    assert !less(t[1], t[0]);
    assert s[0] in multiset(t) && s[1] in multiset(t);
  }

  lemma Swapped<T>(s: seq<T>, t: seq<T>, less: (T, T) -> bool)
    requires SortedPerm(s, t, less) && |s| == 2 && less(s[1], s[0]) && !less(s[0], s[1])
    ensures t == [s[1], s[0]]
  {
    assert s == [s[0], s[1]];
    Pair([s[1], s[0]], t, less);
  }

  // ----- the canonical form of a compiled state

  lemma FlagsNormal(s: NftSetSpec, o: NftSetSpec)
    requires NormalSet(s, o) && s.flags == ["interval"]
    ensures o == s.(elements := o.elements)
  {
    Single(s.flags, o.flags, StringLess);
  }

  /** The sets in order of name. */
  lemma CompiledSets(p: Policy, mid: seq<NftSetSpec>, sets: seq<NftSetSpec>)
    requires NormalSets(NftOf(p).sets, mid) && SortedPerm(mid, sets, SetLess)
    ensures |sets| == if InboundManaged(p) then 2 else 1
    ensures NormalSet(RuNetsSet(p), sets[|sets| - 1])
    ensures InboundManaged(p) ==> NormalSet(HomeNetsSet(p), sets[0])
  {
    hide NormalSet, SortedPerm, SetLess;
    assert NormalSet(NftOf(p).sets[0], mid[0]);
    if InboundManaged(p) {
      assert NormalSet(NftOf(p).sets[1], mid[1]);
      NamesKept(p, mid[0], mid[1]);
      Swapped(mid, sets, SetLess);
    } else {
      Single(mid, sets, SetLess);
    }
  }

  lemma NamesKept(p: Policy, ru: NftSetSpec, home: NftSetSpec)
    requires NormalSet(RuNetsSet(p), ru) && NormalSet(HomeNetsSet(p), home)
    ensures SetLess(home, ru) && !SetLess(ru, home)
  {
    assert HOME_NETS[0] < RU_NETS[0];
  }

  /** The rules of a prerouting chain in canonical form. */
  lemma CompiledPrerouting(p: Policy, o: NftChainSpec)
    requires NormalChain(PreroutingChain(p), o)
    ensures |o.rules| == 2 && o == PreroutingChain(p).(rules := o.rules)
    ensures NormalRule(DropIPv6Rule(), o.rules[0]) && NormalRule(MarkRule(p), o.rules[1])
  {
    hide NormalRule, SortedPerm, RuleLess;
    var rules := PreroutingChain(p).rules;
    var mid: seq<NftRuleSpec> :| NormalRules(rules, mid) && SortedPerm(mid, o.rules, RuleLess);
    assert NormalRule(rules[0], mid[0]) && NormalRule(rules[1], mid[1]);
    DescriptionsKept(p, mid[0], mid[1]);
    Pair(mid, o.rules, RuleLess);
  }

  lemma DescriptionsKept(p: Policy, drop: NftRuleSpec, mark: NftRuleSpec)
    requires NormalRule(DropIPv6Rule(), drop) && NormalRule(MarkRule(p), mark)
    ensures RuleLess(drop, mark) && !RuleLess(mark, drop)
  {
    assert "drop-ipv6"[0] < "mark-non-direct"[0];
  }

  lemma CompiledForward(o: NftChainSpec)
    requires NormalChain(ForwardChain(), o)
    ensures o == ForwardChain()
  {
    hide SortedPerm, RuleLess, NetLess, IpLess;
    var rules := ForwardChain().rules;
    var mid: seq<NftRuleSpec> :| NormalRules(rules, mid) && SortedPerm(mid, o.rules, RuleLess);
    assert NormalRule(rules[0], mid[0]);
    Single(rules[0].excludePrefixes, mid[0].excludePrefixes, NetLess);
    Single(rules[0].excludeAddrs, mid[0].excludeAddrs, IpLess);
    Single(mid, o.rules, RuleLess);
    assert mid == rules;
  }

  /** The chains in order of name. */
  lemma CompiledChains(p: Policy, mid: seq<NftChainSpec>, chains: seq<NftChainSpec>)
    requires NormalChains(NftOf(p).chains, mid) && SortedPerm(mid, chains, ChainLess)
    ensures |chains| == if InboundManaged(p) then 2 else 1
    ensures NormalChain(PreroutingChain(p), chains[|chains| - 1])
    ensures InboundManaged(p) ==> chains[0] == ForwardChain()
  {
    hide NormalChain, SortedPerm, ChainLess;
    assert NormalChain(NftOf(p).chains[0], mid[0]);
    if InboundManaged(p) {
      assert NormalChain(NftOf(p).chains[1], mid[1]);
      CompiledForward(mid[1]);
      ChainNamesKept(p, mid[0]);
      Swapped(mid, chains, ChainLess);
    } else {
      Single(mid, chains, ChainLess);
    }
  }

  lemma ChainNamesKept(p: Policy, o: NftChainSpec)
    requires NormalChain(PreroutingChain(p), o)
    ensures ChainLess(ForwardChain(), o) && !ChainLess(o, ForwardChain())
  {
    assert "forward"[0] < "prerouting"[0];
  }

  lemma CompiledRoutes(p: Policy, routes: seq<RouteSpec>)
    requires SortedPerm(StateOf(p).routes, routes, RouteLess)
    ensures routes == StateOf(p).routes
  {
    hide SortedPerm;
    if p.tunnelUp {
      Pair(StateOf(p).routes, routes, RouteLess);
    } else {
      Single(StateOf(p).routes, routes, RouteLess);
    }
  }

  lemma CompiledSysctls(m: seq<SysctlSpec>, n: seq<SysctlSpec>)
    requires SortedPerm(Sysctls(), m, SysctlLess) && SortedPerm(Sysctls(), n, SysctlLess)
    ensures m == n
  {
    forall i, j | 0 <= i < |m| && 0 <= j < |m| && !SysctlLess(m[i], m[j]) && !SysctlLess(m[j], m[i]) ensures m[i] == m[j] {
      StringLessTotal(m[i].key, m[j].key);
      assert m[i] in multiset(Sysctls()) && m[j] in multiset(Sysctls());
      KeysDistinct(m[i], m[j]);
    }
    SortedUnique(m, n, SysctlLess);
  }

  lemma KeysDistinct(a: SysctlSpec, b: SysctlSpec)
    requires a in Sysctls() && b in Sysctls() && a.key == b.key
    ensures a == b
  {
    var s := Sysctls();
    assert |s[0].key| != |s[1].key| && |s[0].key| != |s[2].key| && |s[1].key| != |s[2].key|;
  }

  // ----- semantic equality of compiled states

  ghost predicate SameList(a: seq<Net>, b: seq<Net>) {
    multiset(a) == multiset(b)
  }

  /** The same peer, its allowed prefixes in any order. */
  ghost predicate SamePeer(a: WireGuardPeer, b: WireGuardPeer) {
    && a.(allowedIPs := None) == b.(allowedIPs := None)
    && (a.allowedIPs == None <==> b.allowedIPs == None)
    && (a.allowedIPs.Some? && b.allowedIPs.Some? ==> SameList(a.allowedIPs.value, b.allowedIPs.value))
  }

  ghost predicate SameWireGuard(a: WireGuardConfig, b: WireGuardConfig) {
    a.(peer := b.peer) == b && SamePeer(a.peer, b.peer)
  }

  /** The same policy: direct prefixes, LANs and allowed prefixes in any order, defaults written out or not. */
  ghost predicate SameUpToOrder(p: Policy, q: Policy) {
    && SameList(p.directPrefixes, q.directPrefixes) && SameList(p.lans, q.lans)
    && p.tunnelEndpoint == q.tunnelEndpoint
    && MarkOf(p) == MarkOf(q) && TableOf(p) == TableOf(q) && PriorityOf(p) == PriorityOf(q) && IfaceOf(p) == IfaceOf(q)
    && p.tunnelUp == q.tunnelUp
    && SameWireGuard(p.wireGuard, q.wireGuard) && SameWireGuard(p.inboundWireGuard, q.inboundWireGuard)
  }

  lemma PeersIff(a: WireGuardSpec, b: WireGuardSpec, m: WireGuardSpec, n: WireGuardSpec)
    requires NormalPeer(a, m) && NormalPeer(b, n)
    ensures m == n <==> a.(peer := b.peer) == b && SamePeer(a.peer, b.peer)
  {
    hide NetLess;
    if a.peer.allowedIPs.Some? && b.peer.allowedIPs.Some? {
      NetsUnique(a.peer.allowedIPs.value, b.peer.allowedIPs.value, m.peer.allowedIPs.value, n.peer.allowedIPs.value);
    }
    assert m == a.(peer := a.peer.(allowedIPs := m.peer.allowedIPs));
    assert n == b.(peer := b.peer.(allowedIPs := n.peer.allowedIPs));
  }

  lemma SetsIff(s: NftSetSpec, t: NftSetSpec, m: NftSetSpec, n: NftSetSpec)
    requires NormalSet(s, m) && NormalSet(t, n) && s.name == t.name && s.typ == t.typ && s.flags == t.flags == ["interval"]
    ensures m == n <==> SameList(s.elements, t.elements)
  {
    FlagsNormal(s, m);
    FlagsNormal(t, n);
    NetsUnique(s.elements, t.elements, m.elements, n.elements);
  }

  lemma MarkRulesIff(p: Policy, q: Policy, m: NftRuleSpec, n: NftRuleSpec)
    requires p.tunnelEndpoint != NoIp && q.tunnelEndpoint != NoIp
    requires NormalRule(MarkRule(p), m) && NormalRule(MarkRule(q), n)
    ensures m == n <==> SameList(p.lans, q.lans) && p.tunnelEndpoint == q.tunnelEndpoint && MarkOf(p) == MarkOf(q)
  {
    NetsUnique(p.lans, q.lans, m.excludePrefixes, n.excludePrefixes);
    Single([p.tunnelEndpoint], m.excludeAddrs, IpLess);
    Single([q.tunnelEndpoint], n.excludeAddrs, IpLess);
    hide NetLess, IpLess;
    assert m.mark == MarkOf(p) && n.mark == MarkOf(q);
    assert m.excludeAddrs == [p.tunnelEndpoint] && n.excludeAddrs == [q.tunnelEndpoint];
    assert m.excludeAddrs == n.excludeAddrs ==> m.excludeAddrs[0] == n.excludeAddrs[0];
  }

  lemma DropRulesSame(m: NftRuleSpec)
    requires NormalRule(DropIPv6Rule(), m)
    ensures m == DropIPv6Rule()
  {
    Single([], m.excludePrefixes, NetLess);
    Single([], m.excludeAddrs, IpLess);
  }

  lemma PreroutingIff(p: Policy, q: Policy, m: NftChainSpec, n: NftChainSpec)
    requires p.tunnelEndpoint != NoIp && q.tunnelEndpoint != NoIp
    requires NormalChain(PreroutingChain(p), m) && NormalChain(PreroutingChain(q), n)
    ensures m == n <==> SameList(p.lans, q.lans) && p.tunnelEndpoint == q.tunnelEndpoint && MarkOf(p) == MarkOf(q)
  {
    CompiledPrerouting(p, m);
    CompiledPrerouting(q, n);
    DropRulesSame(m.rules[0]);
    DropRulesSame(n.rules[0]);
    MarkRulesIff(p, q, m.rules[1], n.rules[1]);
    hide NormalRule, NormalChain, SameList, MarkRule, DropIPv6Rule;
    assert m.rules == [m.rules[0], m.rules[1]] && n.rules == [n.rules[0], n.rules[1]];
    assert m == n <==> m.rules == n.rules;
    assert m.rules == n.rules ==> m.rules[1] == n.rules[1];
  }

  lemma SetListsIff(p: Policy, q: Policy, m: seq<NftSetSpec>, n: seq<NftSetSpec>)
    requires exists mid :: NormalSets(NftOf(p).sets, mid) && SortedPerm(mid, m, SetLess)
    requires exists mid :: NormalSets(NftOf(q).sets, mid) && SortedPerm(mid, n, SetLess)
    ensures m == n
       <==> && SameList(p.directPrefixes, q.directPrefixes) && (InboundManaged(p) <==> InboundManaged(q))
            && (InboundManaged(p) ==> SameList(p.lans, q.lans))
  {
    hide NormalSet, NormalSets, SortedPerm, SetLess, SameList, NftOf, InboundManaged;
    var s: seq<NftSetSpec> :| NormalSets(NftOf(p).sets, s) && SortedPerm(s, m, SetLess);
    var t: seq<NftSetSpec> :| NormalSets(NftOf(q).sets, t) && SortedPerm(t, n, SetLess);
    CompiledSets(p, s, m);
    CompiledSets(q, t, n);
    SetsIff(RuNetsSet(p), RuNetsSet(q), m[|m| - 1], n[|n| - 1]);
    if InboundManaged(p) && InboundManaged(q) {
      SetsIff(HomeNetsSet(p), HomeNetsSet(q), m[0], n[0]);
    }
  }

  lemma ChainListsIff(p: Policy, q: Policy, m: seq<NftChainSpec>, n: seq<NftChainSpec>)
    requires p.tunnelEndpoint != NoIp && q.tunnelEndpoint != NoIp
    requires exists mid :: NormalChains(NftOf(p).chains, mid) && SortedPerm(mid, m, ChainLess)
    requires exists mid :: NormalChains(NftOf(q).chains, mid) && SortedPerm(mid, n, ChainLess)
    ensures m == n
       <==> && SameList(p.lans, q.lans) && p.tunnelEndpoint == q.tunnelEndpoint && MarkOf(p) == MarkOf(q)
            && (InboundManaged(p) <==> InboundManaged(q))
  {
    hide NormalChain, NormalChains, SortedPerm, ChainLess, SameList, NftOf, InboundManaged, MarkOf, ForwardChain;
    var s: seq<NftChainSpec> :| NormalChains(NftOf(p).chains, s) && SortedPerm(s, m, ChainLess);
    var t: seq<NftChainSpec> :| NormalChains(NftOf(q).chains, t) && SortedPerm(t, n, ChainLess);
    CompiledChains(p, s, m);
    CompiledChains(q, t, n);
    PreroutingIff(p, q, m[|m| - 1], n[|n| - 1]);
  }

  /** Rules and routes are listed the same in every canonical form. */
  lemma ListedAsCompiled(p: Policy, m: DesiredKernelState)
    requires Normal(StateOf(p), m)
    ensures m.ipRules == StateOf(p).ipRules && m.routes == StateOf(p).routes
  {
    CompiledRoutes(p, m.routes);
    hide SortedPerm;
    Single(StateOf(p).ipRules, m.ipRules, IPRuleLess);
  }

  lemma NftIff(p: Policy, q: Policy, m: DesiredKernelState, n: DesiredKernelState)
    requires Sound(p) && Sound(q) && Normal(StateOf(p), m) && Normal(StateOf(q), n)
    ensures m.nft == n.nft
       <==> && SameList(p.directPrefixes, q.directPrefixes) && SameList(p.lans, q.lans)
            && p.tunnelEndpoint == q.tunnelEndpoint && MarkOf(p) == MarkOf(q)
            && (InboundManaged(p) <==> InboundManaged(q))
  {
    hide NormalSets, NormalChains, SortedPerm, SetLess, ChainLess, SameList, NftOf, MarkOf, InboundManaged, NormalPeer;
    SetListsIff(p, q, m.nft.sets, n.nft.sets);
    ChainListsIff(p, q, m.nft.chains, n.nft.chains);
    NftNamed(p, q);
  }

  lemma NftNamed(p: Policy, q: Policy)
    ensures NftOf(p).family == NftOf(q).family && NftOf(p).table == NftOf(q).table
  {
  }

  lemma WireGuardIff(p: Policy, q: Policy, m: DesiredKernelState, n: DesiredKernelState)
    requires Normal(StateOf(p), m) && Normal(StateOf(q), n)
    ensures m.wireGuard == n.wireGuard
       <==> IfaceOf(p) == IfaceOf(q) && p.tunnelUp == q.tunnelUp && SameWireGuard(p.wireGuard, q.wireGuard)
    ensures m.wireGuardClients == n.wireGuardClients <==> SameWireGuard(p.inboundWireGuard, q.inboundWireGuard)
  {
    hide NormalSets, NormalChains, SortedPerm, SamePeer, NftOf, NormalPeer;
    var s, t := StateOf(p), StateOf(q);
    PeersIff(s.wireGuard, t.wireGuard, m.wireGuard, n.wireGuard);
    PeersIff(s.wireGuardClients, t.wireGuardClients, m.wireGuardClients, n.wireGuardClients);
  }

  /** Two compiled states are semantically equal exactly if their policies are the same up to the order of direct
      prefixes, LANs and allowed prefixes, whatever canonical forms the sorting picks. */
  lemma SemanticEqualIff(p: Policy, q: Policy, m: DesiredKernelState, n: DesiredKernelState)
    requires Sound(p) && Sound(q) && Normal(StateOf(p), m) && Normal(StateOf(q), n)
    ensures m == n <==> SameUpToOrder(p, q)
  {
    NftIff(p, q, m, n);
    WireGuardIff(p, q, m, n);
    ListedAsCompiled(p, m);
    ListedAsCompiled(q, n);
    SysctlsSame(p, q, m, n);
    InboundFollows(p, q);
    RestIff(p, q);
    hide SameList, SameWireGuard, Normal, StateOf, MarkOf, TableOf, PriorityOf, IfaceOf, InboundManaged, Sound;
  }

  lemma SysctlsSame(p: Policy, q: Policy, m: DesiredKernelState, n: DesiredKernelState)
    requires Normal(StateOf(p), m) && Normal(StateOf(q), n)
    ensures m.sysctls == n.sysctls
  {
    hide SortedPerm;
    CompiledSysctls(m.sysctls, n.sysctls);
  }

  lemma InboundFollows(p: Policy, q: Policy)
    ensures SameWireGuard(p.inboundWireGuard, q.inboundWireGuard) ==> (InboundManaged(p) <==> InboundManaged(q))
  {
    hide SamePeer;
  }

  /** What the compiled rules and routes say about the policies. */
  lemma RestIff(p: Policy, q: Policy)
    ensures StateOf(p).ipRules == StateOf(q).ipRules
       <==> PriorityOf(p) == PriorityOf(q) && MarkOf(p) == MarkOf(q) && TableOf(p) == TableOf(q)
    ensures TableOf(p) == TableOf(q) && IfaceOf(p) == IfaceOf(q) && p.tunnelUp == q.tunnelUp
        ==> StateOf(p).routes == StateOf(q).routes
  {
    hide MarkOf, TableOf, PriorityOf, IfaceOf, NftOf;
    assert StateOf(p).ipRules == StateOf(q).ipRules ==> StateOf(p).ipRules[0] == StateOf(q).ipRules[0];
  }

  /** SemanticEqual: equal canonical forms; of compiled states, the same policy up to order. */
  method SemanticEqual(a: DesiredKernelState, b: DesiredKernelState) returns (equal: bool)
    ensures exists na, nb :: Normal(a, na) && Normal(b, nb) && equal == (na == nb)
    ensures forall p, q :: Sound(p) && Sound(q) && StateOf(p) == a && StateOf(q) == b ==> (equal <==> SameUpToOrder(p, q))
  {
    var na := Normalize(a);
    var nb := Normalize(b);
    equal := na == nb;
    forall p, q | Sound(p) && Sound(q) && StateOf(p) == a && StateOf(q) == b ensures equal <==> SameUpToOrder(p, q) {
      SemanticEqualIff(p, q, na, nb);
    }
  }

  // ----- normalizing twice

  lemma NetsFixed(s: seq<Net>, m: seq<Net>, o: seq<Net>)
    requires SortedPerm(s, m, NetLess) && SortedPerm(m, o, NetLess)
    ensures o == m
  {
    NetsUnique(s, s, m, o);
  }

  lemma PeerFixed(s: WireGuardSpec, m: WireGuardSpec, o: WireGuardSpec)
    requires NormalPeer(s, m) && NormalPeer(m, o)
    ensures o == m
  {
    hide SortedPerm, NetLess;
    if s.peer.allowedIPs.Some? {
      NetsFixed(s.peer.allowedIPs.value, m.peer.allowedIPs.value, o.peer.allowedIPs.value);
    }
  }

  lemma SetFixed(s: NftSetSpec, m: NftSetSpec, o: NftSetSpec)
    requires NormalSet(s, m) && NormalSet(m, o) && s.flags == ["interval"]
    ensures o == m
  {
    FlagsNormal(s, m);
    FlagsNormal(m, o);
    NetsFixed(s.elements, m.elements, o.elements);
  }

  lemma RuleFixed(s: NftRuleSpec, m: NftRuleSpec, o: NftRuleSpec)
    requires NormalRule(s, m) && NormalRule(m, o) && |s.excludeAddrs| <= 1
    ensures o == m
  {
    hide SortedPerm, NetLess, IpLess;
    NetsFixed(s.excludePrefixes, m.excludePrefixes, o.excludePrefixes);
    Single(s.excludeAddrs, m.excludeAddrs, IpLess);
    Single(m.excludeAddrs, o.excludeAddrs, IpLess);
  }

  lemma PreroutingFixed(p: Policy, m: NftChainSpec, o: NftChainSpec)
    requires NormalChain(PreroutingChain(p), m) && NormalChain(m, o)
    ensures o == m
  {
    CompiledPrerouting(p, m);
    hide NormalRule, SortedPerm, RuleLess, MarkRule;
    var mid: seq<NftRuleSpec> :| NormalRules(m.rules, mid) && SortedPerm(mid, o.rules, RuleLess);
    assert NormalRule(m.rules[0], mid[0]) && NormalRule(m.rules[1], mid[1]);
    RuleFixed(DropIPv6Rule(), m.rules[0], mid[0]);
    MarkRuleFixed(p, m.rules[1], mid[1]);
    assert mid == m.rules;
    DescriptionsKept(p, m.rules[0], m.rules[1]);
    Pair(mid, o.rules, RuleLess);
  }

  lemma MarkRuleFixed(p: Policy, m: NftRuleSpec, o: NftRuleSpec)
    requires NormalRule(MarkRule(p), m) && NormalRule(m, o)
    ensures o == m
  {
    RuleFixed(MarkRule(p), m, o);
  }

  lemma SetsFixed(p: Policy, m: seq<NftSetSpec>, o: seq<NftSetSpec>)
    requires exists mid :: NormalSets(NftOf(p).sets, mid) && SortedPerm(mid, m, SetLess)
    requires exists mid :: NormalSets(m, mid) && SortedPerm(mid, o, SetLess)
    ensures o == m
  {
    hide NormalSet, SortedPerm, SetLess, NftOf, InboundManaged;
    var s: seq<NftSetSpec> :| NormalSets(NftOf(p).sets, s) && SortedPerm(s, m, SetLess);
    var t: seq<NftSetSpec> :| NormalSets(m, t) && SortedPerm(t, o, SetLess);
    CompiledSets(p, s, m);
    assert NormalSet(m[|m| - 1], t[|m| - 1]);
    SetFixed(RuNetsSet(p), m[|m| - 1], t[|m| - 1]);
    if InboundManaged(p) {
      assert NormalSet(m[0], t[0]);
      SetFixed(HomeNetsSet(p), m[0], t[0]);
      NamesKept(p, m[1], m[0]);
      assert t == m;
      Pair(t, o, SetLess);
    } else {
      assert t == m;
      Single(t, o, SetLess);
    }
  }

  lemma ChainsFixed(p: Policy, m: seq<NftChainSpec>, o: seq<NftChainSpec>)
    requires exists mid :: NormalChains(NftOf(p).chains, mid) && SortedPerm(mid, m, ChainLess)
    requires exists mid :: NormalChains(m, mid) && SortedPerm(mid, o, ChainLess)
    ensures o == m
  {
    hide NormalChain, SortedPerm, ChainLess, NftOf, InboundManaged, ForwardChain, PreroutingChain;
    var s: seq<NftChainSpec> :| NormalChains(NftOf(p).chains, s) && SortedPerm(s, m, ChainLess);
    var t: seq<NftChainSpec> :| NormalChains(m, t) && SortedPerm(t, o, ChainLess);
    CompiledChains(p, s, m);
    assert NormalChain(m[|m| - 1], t[|m| - 1]);
    PreroutingFixed(p, m[|m| - 1], t[|m| - 1]);
    if InboundManaged(p) {
      assert NormalChain(m[0], t[0]);
      CompiledForward(t[0]);
      ChainNamesKept(p, m[1]);
      assert t == m;
      Pair(t, o, ChainLess);
    } else {
      assert t == m;
      Single(t, o, ChainLess);
    }
  }

  /** Normalizing the canonical form of a compiled state changes nothing. */
  lemma NormalIdempotent(p: Policy, m: DesiredKernelState, n: DesiredKernelState)
    requires Normal(StateOf(p), m) && Normal(m, n)
    ensures n == m
  {
    ListedAsCompiled(p, m);
    hide NormalSets, NormalChains, SetLess, ChainLess, NftOf, NormalPeer, NetLess, SysctlLess, IPRuleLess;
    CompiledSysctls(m.sysctls, n.sysctls);
    CompiledRoutes(p, n.routes);
    hide SortedPerm;
    Single(m.ipRules, n.ipRules, IPRuleLess);
    PeerFixed(StateOf(p).wireGuard, m.wireGuard, n.wireGuard);
    PeerFixed(StateOf(p).wireGuardClients, m.wireGuardClients, n.wireGuardClients);
    SetsFixed(p, m.nft.sets, n.nft.sets);
    ChainsFixed(p, m.nft.chains, n.nft.chains);
  }

  lemma SameListSameCover(a: seq<Net>, b: seq<Net>, x: Addr)
    requires SameList(a, b)
    ensures NetsCover(a, x) ==> NetsCover(b, x)
  {
    hide In;
    if NetsCover(a, x) {
      var i :| 0 <= i < |a| && a[i].Net4? && In(x, a[i].p);
      assert a[i] in multiset(b);
      var j :| 0 <= j < |b| && b[j] == a[i];
      assert In(x, b[j].p);
    }
  }

  lemma SameListSameNet4(a: seq<Net>, b: seq<Net>)
    requires SameList(a, b) && AllNet4(a)
    ensures AllNet4(b)
  {
    forall i | 0 <= i < |b| ensures b[i].Net4? {
      assert b[i] in multiset(a);
    }
  }

  lemma SameListSameMasked(a: seq<Net>, b: seq<Net>)
    requires SameList(a, b) && AllNet4(a) && AllNet4(b)
    ensures MaskedSet(a) <= MaskedSet(b)
  {
    hide Masked;
    forall i | 0 <= i < |a| ensures Masked(a[i].p) in MaskedSet(b) {
      assert a[i] in multiset(b);
      var j :| 0 <= j < |b| && b[j] == a[i];
      assert Masked(b[j].p) in MaskedSet(b);
    }
  }

  lemma SameRenderable(p: Policy, q: Policy)
    requires SameUpToOrder(p, q) && Sound(q) && Renderable(p)
    ensures Renderable(q)
  {
    SameListSameNet4(p.lans, q.lans);
    SameListSameMasked(p.lans, q.lans);
    SameListSameMasked(q.lans, p.lans);
    SameListSameMasked(p.directPrefixes, q.directPrefixes);
    SameListSameMasked(q.directPrefixes, p.directPrefixes);
    hide MaskedSet, Apart, SameList;
  }

  /** Semantically equal compiled states give every packet the same verdict, in both hooks. */
  lemma EqualStatesSameVerdict(p: Policy, q: Policy, m: DesiredKernelState, pkt: Packet)
    requires Sound(p) && Sound(q) && Normal(StateOf(p), m) && Normal(StateOf(q), m) && Renderable(p)
    ensures Renderable(q)
    ensures RunHook(RenderedTable(p), "prerouting", pkt) == RunHook(RenderedTable(q), "prerouting", pkt)
    ensures RunHook(RenderedTable(p), "forward", pkt) == RunHook(RenderedTable(q), "forward", pkt)
  {
    SemanticEqualIff(p, q, m, m);
    SameRenderable(p, q);
    PreroutingMeaning(p, pkt);
    PreroutingMeaning(q, pkt);
    ForwardMeaning(p, pkt);
    ForwardMeaning(q, pkt);
    hide RunHook, RenderedTable, NetsCover, Normal, Renderable;
    if pkt.dst.V4? {
      SameListSameCover(p.lans, q.lans, pkt.dst.a);
      SameListSameCover(q.lans, p.lans, pkt.dst.a);
      SameListSameCover(p.directPrefixes, q.directPrefixes, pkt.dst.a);
      SameListSameCover(q.directPrefixes, p.directPrefixes, pkt.dst.a);
    }
  }
}
