/** What listing the live table shows, and the comparison that decides whether an apply is a no-op. */
module NftLive {
  import opened Wrappers
  import opened Ipv4
  import opened CidrText
  import opened Policy
  import opened NftKernel
  import opened NftRender
  import opened NftPile

  datatype LiveRule = LiveRule(
    chain: string, comment: string, mark: Option<Mark>, dAddrs: seq<string>, iifNames: seq<string>, setNames: seq<string>)

  datatype LiveNft = LiveNft(sets: map<string, set<string>>, chains: map<string, ChainDecl>, rules: seq<LiveRule>)

  // ----- the listing

  /** Set elements are listed as address and length; a single address is listed bare, and bare addresses are
      skipped when the listing is read. */
  function ListedElements(elems: set<Prefix>): set<string> {
    set p | p in elems && p.bits < 32 :: PrefixString(p)
  }

  /** An operand of "ip daddr": masked, and bare if it is a single address. */
  function ListedPrefix(p: Prefix): string {
    if p.bits == 32 then AddrString(First(p)) else PrefixString(Masked(p))
  }

  function ListedDAddrs(m: Match): seq<string> {
    match m
    case DstNet(net) => if net.Net4? then [ListedPrefix(net.p)] else []
    case DstIp(ip) => if ip.Ip4? then [AddrString(ip.a)] else []
    case _ => []
  }

  function AllDAddrs(ms: seq<Match>): seq<string> {
    if ms == [] then [] else ListedDAddrs(ms[0]) + AllDAddrs(ms[1..])
  }

  function IifNames(ms: seq<Match>): seq<string> {
    if ms == [] then [] else (if ms[0].InIface? then [ms[0].name] else []) + IifNames(ms[1..])
  }

  function SetNames(ms: seq<Match>): seq<string> {
    if ms == [] then []
    else (if ms[0].DstIn? || ms[0].DstNotIn? then [ms[0].setName] else []) + SetNames(ms[1..])
  }

  function ListedRule(cr: ChainRule): LiveRule {
    var r := cr.rule;
    LiveRule(cr.chain, r.comment, if r.action.SetMark? then Some(r.action.mark) else None,
             AllDAddrs(r.matches), IifNames(r.matches), SetNames(r.matches))
  }

  function ListedRules(crs: seq<ChainRule>): (rules: seq<LiveRule>)
    ensures |rules| == |crs| && forall i :: 0 <= i < |crs| ==> rules[i] == ListedRule(crs[i])
  {
    seq(|crs|, i requires 0 <= i < |crs| => ListedRule(crs[i]))
  }

  /** "nft -j list table", as parseNftJSON returns it. */
  function Listing(t: Table): LiveNft {
    LiveNft(map s | s in t.sets :: ListedElements(t.sets[s].elems), t.chains, ListedRules(t.rules))
  }

  // ----- the comparison

  predicate StringSetsEqual(a: set<string>, b: set<string>) {
    |a| == |b| && a <= b
  }

  predicate Named(r: LiveRule, chain: string, comment: string) {
    r.chain == chain && r.comment == comment
  }

  function CountComments(rules: seq<LiveRule>, chain: string, comment: string): nat {
    if rules == [] then 0
    else (if Named(rules[0], chain, comment) then 1 else 0) + CountComments(rules[1..], chain, comment)
  }

  function DAddrsForComment(rules: seq<LiveRule>, chain: string, comment: string): set<string> {
    set r, d | r in rules && Named(r, chain, comment) && d in r.dAddrs :: d
  }

  function FirstNamed(rules: seq<LiveRule>, chain: string, comment: string): Option<LiveRule> {
    if rules == [] then None
    else if Named(rules[0], chain, comment) then Some(rules[0])
    else FirstNamed(rules[1..], chain, comment)
  }

  function NetTexts(nets: seq<Net>): set<string> {
    set n | n in nets :: NetString(n)
  }

  function IpTexts(ips: seq<Ip>): set<string> {
    set ip | ip in ips :: IpString(ip)
  }

  /** liveHasRule */
  predicate LiveHasRule(rules: seq<LiveRule>, chain: string, want: NftRuleSpec) {
    if want.dropIPv6 then CountComments(rules, chain, "drop-ipv6") >= 1
    else if want.description == "mark-non-direct" then
      && StringSetsEqual(DAddrsForComment(rules, chain, "exclude-lan"), NetTexts(want.excludePrefixes))
      && StringSetsEqual(DAddrsForComment(rules, chain, "exclude-endpoint"), IpTexts(want.excludeAddrs))
      && match FirstNamed(rules, chain, "mark-non-direct")
         case Some(r) => r.mark == Some(want.mark)
         case None => false
    else if want.description == "isolate-inbound-from-home" then
      match FirstNamed(rules, chain, "isolate-inbound-from-home")
      case Some(r) =>
        && (want.iifName != "" ==> want.iifName in r.iifNames)
        && (want.dropDstSet != "" ==> want.dropDstSet in r.setNames)
      case None => false
    else CountComments(rules, chain, want.description) >= 1
  }

  predicate SetMatches(live: LiveNft, s: NftSetSpec) {
    s.name in live.sets && StringSetsEqual(NetTexts(s.elements), live.sets[s.name])
  }

  predicate ChainMatches(live: LiveNft, c: NftChainSpec) {
    && c.name in live.chains && live.chains[c.name] == DeclOf(c)
    && forall i :: 0 <= i < |c.rules| ==> LiveHasRule(live.rules, c.name, c.rules[i])
  }

  /** semanticMatchJSON on a listing that parsed: only what the spec declares is looked up. */
  predicate SemanticMatch(live: LiveNft, spec: NftSpec) {
    && (forall i :: 0 <= i < |spec.sets| ==> SetMatches(live, spec.sets[i]))
    && (forall i :: 0 <= i < |spec.chains| ==> ChainMatches(live, spec.chains[i]))
  }

  // ----- lemmas on the comparison

  lemma StringSetsEqualIff(a: set<string>, b: set<string>)
    ensures StringSetsEqual(a, b) <==> a == b
  {
    if a <= b {
      assert b == a + (b - a) && |b| == |a| + |b - a|;
    }
  }

  lemma {:induction false} CountIff(rules: seq<LiveRule>, chain: string, comment: string)
    ensures CountComments(rules, chain, comment) >= 1 <==> exists r :: r in rules && Named(r, chain, comment)
  {
    if rules != [] {
      CountIff(rules[1..], chain, comment);
      assert rules == [rules[0]] + rules[1..];
    }
  }

  /** The first rule of a chain with a comment is rule i. */
  ghost predicate FirstAt(rules: seq<LiveRule>, i: int, chain: string, comment: string) {
    && 0 <= i < |rules| && rules[i].chain == chain && rules[i].comment == comment
    && forall j :: 0 <= j < i ==> rules[j].chain != chain || rules[j].comment != comment
  }

  /** The operands of "ip daddr" in the rules of a chain with a comment are exactly these. */
  ghost predicate HasOperands(rules: seq<LiveRule>, chain: string, comment: string, texts: set<string>) {
    forall d :: d in texts <==> exists r :: r in rules && r.chain == chain && r.comment == comment && d in r.dAddrs
  }

  lemma {:induction false} FirstNamedIff(rules: seq<LiveRule>, chain: string, comment: string)
    ensures var first := FirstNamed(rules, chain, comment);
            && (first.Some? <==> exists i :: FirstAt(rules, i, chain, comment))
            && (forall i :: FirstAt(rules, i, chain, comment) ==> first == Some(rules[i]))
  {
    var first := FirstNamed(rules, chain, comment);
    if rules != [] {
      if Named(rules[0], chain, comment) {
        assert FirstAt(rules, 0, chain, comment);
      } else {
        var rest := rules[1..];
        FirstNamedIff(rest, chain, comment);
        assert forall i :: 0 <= i < |rest| ==> rest[i] == rules[i + 1];
        forall i ensures FirstAt(rules, i, chain, comment) <==> i > 0 && FirstAt(rest, i - 1, chain, comment) {
          assert forall j :: 0 < j < |rules| ==> rules[j] == rest[j - 1];
        }
        if i :| FirstAt(rest, i, chain, comment) {
          assert FirstAt(rules, i + 1, chain, comment);
        }
      }
    }
  }

  lemma OperandsIff(rules: seq<LiveRule>, chain: string, comment: string, texts: set<string>)
    ensures StringSetsEqual(DAddrsForComment(rules, chain, comment), texts) <==> HasOperands(rules, chain, comment, texts)
  {
    var found := DAddrsForComment(rules, chain, comment);
    StringSetsEqualIff(found, texts);
    hide StringSetsEqual;
    forall d
      ensures d in found <==> exists r :: r in rules && r.chain == chain && r.comment == comment && d in r.dAddrs
    {
      if r :| r in rules && r.chain == chain && r.comment == comment && d in r.dAddrs {
        assert Named(r, chain, comment);
      }
    }
  }

  /** Whether the live rules have a declared one, for every list of rules and every declaration: the chain has a rule with
      its comment; for the mark rule, the operands of the exclusions are those declared and the first such rule leaves the
      mark; for the isolation rule, the first such rule names the interface and the set, as far as they are declared. */
  lemma HasRuleIff(rules: seq<LiveRule>, chain: string, want: NftRuleSpec)
    ensures LiveHasRule(rules, chain, want)
       <==> if want.dropIPv6 then exists r :: r in rules && r.chain == chain && r.comment == "drop-ipv6"
            else if want.description == "mark-non-direct" then
              && HasOperands(rules, chain, "exclude-lan", set n | n in want.excludePrefixes :: NetString(n))
              && HasOperands(rules, chain, "exclude-endpoint", set ip | ip in want.excludeAddrs :: IpString(ip))
              && exists i :: FirstAt(rules, i, chain, "mark-non-direct") && rules[i].mark == Some(want.mark)
            else if want.description == "isolate-inbound-from-home" then
              exists i :: && FirstAt(rules, i, chain, "isolate-inbound-from-home")
                          && (want.iifName != "" ==> want.iifName in rules[i].iifNames)
                          && (want.dropDstSet != "" ==> want.dropDstSet in rules[i].setNames)
            else exists r :: r in rules && r.chain == chain && r.comment == want.description
  {
    CountIff(rules, chain, "drop-ipv6");
    CountIff(rules, chain, want.description);
    OperandsIff(rules, chain, "exclude-lan", NetTexts(want.excludePrefixes));
    OperandsIff(rules, chain, "exclude-endpoint", IpTexts(want.excludeAddrs));
    FirstNamedIff(rules, chain, want.description);
    NamedIff(rules, chain, "drop-ipv6");
    NamedIff(rules, chain, want.description);
    hide CountComments, DAddrsForComment, StringSetsEqual, HasOperands, FirstNamed, FirstAt, NetString, IpString, Named;
  }

  lemma NamedIff(rules: seq<LiveRule>, chain: string, comment: string)
    ensures (exists r :: r in rules && Named(r, chain, comment))
       <==> exists r :: r in rules && r.chain == chain && r.comment == comment
  {
    if r :| r in rules && r.chain == chain && r.comment == comment {
      assert Named(r, chain, comment);
    }
  }

  /** Where all the rules of one name are alike, the first is known. */
  lemma {:induction false} FirstNamedUnique(rules: seq<LiveRule>, r: LiveRule, chain: string, comment: string)
    requires r in rules && Named(r, chain, comment)
    requires forall s :: s in rules && Named(s, chain, comment) ==> s == r
    ensures FirstNamed(rules, chain, comment) == Some(r)
  {
    assert rules == [rules[0]] + rules[1..];
    if !Named(rules[0], chain, comment) {
      FirstNamedUnique(rules[1..], r, chain, comment);
    }
  }

  // ----- the listing of the tables that applies leave

  const DROP_LISTED: LiveRule := LiveRule("prerouting", "drop-ipv6", None, [], [], [])

  const ISOLATE_LISTED: LiveRule :=
    LiveRule("forward", "isolate-inbound-from-home", None, [], [DEFAULT_CLIENTS_IFACE], [HOME_NETS])

  function LanListed(n: Net): LiveRule {
    LiveRule("prerouting", "exclude-lan", None, ListedDAddrs(DstNet(n)), [], [])
  }

  function EndpointListed(ip: Ip): LiveRule {
    LiveRule("prerouting", "exclude-endpoint", None, ListedDAddrs(DstIp(ip)), [], [])
  }

  function MarkListed(m: Mark): LiveRule {
    LiveRule("prerouting", "mark-non-direct", Some(m), [], [], [RU_NETS])
  }

  lemma OneMatch(m: Match)
    ensures AllDAddrs([m]) == ListedDAddrs(m)
    ensures IifNames([m]) == (if m.InIface? then [m.name] else [])
    ensures SetNames([m]) == (if m.DstIn? || m.DstNotIn? then [m.setName] else [])
  {
    assert [m][1..] == [];
  }

  lemma ListedForward()
    ensures ListedRule(ChainRule("forward", FORWARD_LINE)) == ISOLATE_LISTED
  {
    var ms := FORWARD_LINE.matches;
    assert ms[1..] == [DstIn(HOME_NETS)];
    OneMatch(DstIn(HOME_NETS));
  }

  /** The rules listed for one policy. */
  ghost predicate IsListed(p: Policy, r: LiveRule) {
    || r == DROP_LISTED
    || (exists i :: 0 <= i < |p.lans| && r == LanListed(p.lans[i]))
    || r == EndpointListed(p.tunnelEndpoint)
    || r == MarkListed(MarkOf(p))
    || (InboundManaged(p) && r == ISOLATE_LISTED)
  }

  ghost function LansListed(nets: seq<Net>): (rules: seq<LiveRule>)
    ensures |rules| == |nets| && forall i :: 0 <= i < |nets| ==> rules[i] == LanListed(nets[i])
  {
    seq(|nets|, i requires 0 <= i < |nets| => LanListed(nets[i]))
  }

  lemma ListedLans(nets: seq<Net>)
    ensures ListedRules(InChain("prerouting", ExcludeNets(nets))) == LansListed(nets)
  {
    var listed := ListedRules(InChain("prerouting", ExcludeNets(nets)));
    forall i | 0 <= i < |nets| ensures listed[i] == LanListed(nets[i]) {
      OneMatch(DstNet(nets[i]));
    }
  }

  lemma ListedOne(r: Rule)
    requires |r.matches| == 1
    ensures ListedRules(InChain("prerouting", [r])) == [ListedRule(ChainRule("prerouting", r))]
    ensures var m := r.matches[0];
            ListedRule(ChainRule("prerouting", r))
              == LiveRule("prerouting", r.comment, if r.action.SetMark? then Some(r.action.mark) else None, ListedDAddrs(m),
                          if m.InIface? then [m.name] else [], if m.DstIn? || m.DstNotIn? then [m.setName] else [])
  {
    OneMatch(r.matches[0]);
    assert r.matches == [r.matches[0]];
  }

  lemma ListedConcat(chain: string, a: seq<Rule>, b: seq<Rule>)
    ensures ListedRules(InChain(chain, a + b)) == ListedRules(InChain(chain, a)) + ListedRules(InChain(chain, b))
  {
    hide ListedRule;
    assert InChain(chain, a + b) == InChain(chain, a) + InChain(chain, b);
  }

  lemma ListedPrerouting(p: Policy)
    requires p.tunnelEndpoint != NoIp
    ensures ListedRules(InChain("prerouting", PreroutingLines(p)))
         == [DROP_LISTED] + LansListed(p.lans) + [EndpointListed(p.tunnelEndpoint)] + [MarkListed(MarkOf(p))]
  {
    var drop, ep := Rule([IsIPv6], Drop, "drop-ipv6"), Rule([DstIp(p.tunnelEndpoint)], Return, "exclude-endpoint");
    var mark := Rule([DstNotIn(RU_NETS)], SetMark(MarkOf(p)), "mark-non-direct");
    ListedOne(drop);
    ListedOne(ep);
    ListedOne(mark);
    ListedLans(p.lans);
    hide ListedRules, InChain, ListedRule;
    assert ExcludeIps([p.tunnelEndpoint]) == [ep];
    ListedConcat("prerouting", [drop] + ExcludeNets(p.lans) + [ep], [mark]);
    ListedConcat("prerouting", [drop] + ExcludeNets(p.lans), [ep]);
    ListedConcat("prerouting", [drop], ExcludeNets(p.lans));
  }

  ghost function AllListed(p: Policy): seq<LiveRule> {
    [DROP_LISTED] + LansListed(p.lans) + [EndpointListed(p.tunnelEndpoint)] + [MarkListed(MarkOf(p))]
      + (if InboundManaged(p) then [ISOLATE_LISTED] else [])
  }

  lemma ListedPolicy(p: Policy)
    requires p.tunnelEndpoint != NoIp
    ensures ListedRules(RulesOf(p)) == AllListed(p)
  {
    ListedPrerouting(p);
    ListedForward();
    hide PreroutingLines, ListedRule;
    ListedParts(InChain("prerouting", PreroutingLines(p)), ForwardRules(p));
    assert ListedRules(InChain("forward", [FORWARD_LINE])) == [ISOLATE_LISTED];
  }

  lemma ListedParts(a: seq<ChainRule>, b: seq<ChainRule>)
    ensures ListedRules(a + b) == ListedRules(a) + ListedRules(b)
  {
    hide ListedRule;
  }

  lemma InConcat(r: LiveRule, a: seq<LiveRule>, b: seq<LiveRule>)
    ensures r in a + b <==> r in a || r in b
  {
  }

  lemma PolicyListedIff(p: Policy, r: LiveRule)
    ensures r in AllListed(p) <==> IsListed(p, r)
  {
    hide LanListed, EndpointListed, MarkListed;
    var lans, ep, mark := LansListed(p.lans), [EndpointListed(p.tunnelEndpoint)], [MarkListed(MarkOf(p))];
    assert r in lans <==> exists i :: 0 <= i < |p.lans| && r == LanListed(p.lans[i]);
    InConcat(r, [DROP_LISTED], lans);
    InConcat(r, [DROP_LISTED] + lans, ep);
    InConcat(r, [DROP_LISTED] + lans + ep, mark);
    InConcat(r, [DROP_LISTED] + lans + ep + mark, if InboundManaged(p) then [ISOLATE_LISTED] else []);
  }

  ghost predicate Endpoints4(h: seq<Policy>) {
    forall i :: 0 <= i < |h| ==> h[i].tunnelEndpoint.Ip4?
  }

  /** The rules of the oldest policy are listed first. */
  lemma ListedFirst(h: seq<Policy>)
    requires Endpoints4(h) && h != []
    ensures ListedRules(PileRules(h)) == AllListed(h[0]) + ListedRules(PileRules(h[1..]))
  {
    ListedPolicy(h[0]);
    hide ListedRules, RulesOf, AllListed;
    ListedParts(RulesOf(h[0]), PileRules(h[1..]));
  }

  /** Listing the table of a history shows exactly the rules of its policies. */
  lemma {:induction false} ListedIff(h: seq<Policy>, r: LiveRule)
    requires Endpoints4(h)
    ensures r in ListedRules(PileRules(h)) <==> exists i :: 0 <= i < |h| && IsListed(h[i], r)
  {
    if h != [] {
      ListedFirst(h);
      ListedIff(h[1..], r);
      PolicyListedIff(h[0], r);
      hide IsListed, AllListed, ListedRules, PileRules;
      InConcat(r, AllListed(h[0]), ListedRules(PileRules(h[1..])));
      assert forall i :: 0 <= i < |h[1..]| ==> h[1..][i] == h[i + 1];
      if i :| 0 <= i < |h| && IsListed(h[i], r) {
        assert i > 0 ==> IsListed(h[1..][i - 1], r);
      }
      if i :| 0 <= i < |h[1..]| && IsListed(h[1..][i], r) {
        assert IsListed(h[i + 1], r);
      }
    }
  }

  lemma {:induction false} FirstNamedConcat(a: seq<LiveRule>, b: seq<LiveRule>, chain: string, comment: string)
    ensures FirstNamed(a, chain, comment).Some? ==> FirstNamed(a + b, chain, comment) == FirstNamed(a, chain, comment)
  {
    if a != [] {
      assert (a + b)[0] == a[0] && (a + b)[1..] == a[1..] + b;
      FirstNamedConcat(a[1..], b, chain, comment);
    }
  }

  lemma {:induction false} InAllLans(h: seq<Policy>, n: Net)
    ensures n in AllLans(h) <==> exists i :: 0 <= i < |h| && n in h[i].lans
  {
    if h != [] {
      InAllLans(h[1..], n);
      assert forall i :: 0 <= i < |h[1..]| ==> h[1..][i] == h[i + 1];
      if i :| 0 <= i < |h| && n in h[i].lans {
        assert i > 0 ==> n in h[1..][i - 1].lans;
      }
      if i :| 0 <= i < |h[1..]| && n in h[1..][i].lans {
        assert n in h[i + 1].lans;
      }
    }
  }
}
