/** What a table does to packets: the verdicts of every table that applies can leave, and the compiler's
  correctness, from the policy's uncollapsed prefixes to the kernel's verdict. */
module NftMeaning {
  import opened Ipv4
  import opened Blocks
  import opened Policy
  import opened NftKernel
  import opened NftRender
  import opened NftPile

  // ----- destinations

  ghost predicate Excludes(p: Policy, a: Addr) {
    NetsCover(p.lans, a) || p.tunnelEndpoint == Ip4(a)
  }

  /** The destinations that are to leave by the tunnel. */
  ghost predicate GoesToTunnel(p: Policy, a: Addr) {
    !Excludes(p, a) && !NetsCover(p.directPrefixes, a)
  }

  lemma InMaskedSet(nets: seq<Net>, a: Addr)
    requires AllNet4(nets)
    ensures (exists p :: p in MaskedSet(nets) && In(a, p)) <==> NetsCover(nets, a)
  {
    hide First, End;
    if p :| p in MaskedSet(nets) && In(a, p) {
      var i :| 0 <= i < |nets| && Masked(nets[i].p) == p;
      SameBlock(nets[i].p, a);
    }
    if NetsCover(nets, a) {
      var i :| 0 <= i < |nets| && nets[i].Net4? && In(a, nets[i].p);
      SameBlock(nets[i].p, a);
      assert Masked(nets[i].p) in MaskedSet(nets);
    }
  }

  lemma SameBlock(p: Prefix, a: Addr)
    ensures In(a, Masked(p)) <==> In(a, p)
  {
    MaskedIsMasked(p);
  }

  lemma {:induction false} RunExcludes(t: Table, chain: string, nets: seq<Net>, rest: seq<ChainRule>, pkt: Packet)
    ensures RunRules(t, chain, InChain(chain, ExcludeNets(nets)) + rest, pkt)
         == if pkt.dst.V4? && NetsCover(nets, pkt.dst.a) then AtEnd(t, chain, pkt) else RunRules(t, chain, rest, pkt)
  {
    var rules := InChain(chain, ExcludeNets(nets));
    if nets == [] {
      assert rules + rest == rest;
    } else {
      var r := Rule([DstNet(nets[0])], Return, "exclude-lan");
      RunExcludes(t, chain, nets[1..], rest, pkt);
      assert InChain(chain, ExcludeNets(nets[1..])) == rules[1..];
      assert rules + rest == [ChainRule(chain, r)] + (rules[1..] + rest);
      RunFirst(t, chain, r, rules[1..] + rest, pkt);
      assert Applies(t, r, pkt) <==> Holds(t, r.matches[0], pkt);
      if pkt.dst.V4? {
        CoverSplit(nets, pkt.dst.a);
      }
    }
  }

  lemma CoverSplit(nets: seq<Net>, a: Addr)
    requires nets != []
    ensures NetsCover(nets, a) <==> (nets[0].Net4? && In(a, nets[0].p)) || NetsCover(nets[1..], a)
  {
    hide In;
    if NetsCover(nets, a) {
      var i :| 0 <= i < |nets| && nets[i].Net4? && In(a, nets[i].p);
      assert i > 0 ==> nets[1..][i - 1] == nets[i];
    }
    if NetsCover(nets[1..], a) {
      var i :| 0 <= i < |nets[1..]| && nets[1..][i].Net4? && In(a, nets[1..][i].p);
      assert nets[i + 1] == nets[1..][i];
    }
  }

  lemma {:induction false} RunExcludeIps(t: Table, chain: string, ips: seq<Ip>, rest: seq<ChainRule>, pkt: Packet)
    ensures RunRules(t, chain, InChain(chain, ExcludeIps(ips)) + rest, pkt)
         == if pkt.dst.V4? && Ip4(pkt.dst.a) in ips then AtEnd(t, chain, pkt) else RunRules(t, chain, rest, pkt)
  {
    var rules := InChain(chain, ExcludeIps(ips));
    if ips == [] {
      assert rules + rest == rest;
    } else {
      var r := Rule([DstIp(ips[0])], Return, "exclude-endpoint");
      RunExcludeIps(t, chain, ips[1..], rest, pkt);
      assert InChain(chain, ExcludeIps(ips[1..])) == rules[1..];
      assert rules + rest == [ChainRule(chain, r)] + (rules[1..] + rest);
      RunFirst(t, chain, r, rules[1..] + rest, pkt);
      assert Applies(t, r, pkt) <==> Holds(t, r.matches[0], pkt);
      assert ips == [ips[0]] + ips[1..];
    }
  }

  /** What the lines of one declared rule do to a packet, for every declaration, table and chain: the IPv6 rule drops IPv6;
      the mark rule marks IPv4 that is in none of its exclusions and not in its set; the isolation rule drops IPv4 into its
      set from its interface; and a declaration of another kind does nothing. */
  lemma RuleMeaning(t: Table, chain: string, spec: NftRuleSpec, pkt: Packet)
    ensures RunRules(t, chain, InChain(chain, LinesOf(spec)), pkt)
         == if spec.dropIPv6 then if pkt.dst.V6? then Dropped else AtEnd(t, chain, pkt)
            else if spec.description == "mark-non-direct" then
              if && pkt.dst.V4? && !NetsCover(spec.excludePrefixes, pkt.dst.a) && Ip4(pkt.dst.a) !in spec.excludeAddrs
                 && spec.directSet in t.sets && !InSet(t, spec.directSet, pkt.dst.a)
              then AtEnd(t, chain, pkt.(mark := spec.mark)) else AtEnd(t, chain, pkt)
            else if spec.description == "isolate-inbound-from-home" then
              if pkt.dst.V4? && pkt.iif == spec.iifName && InSet(t, spec.dropDstSet, pkt.dst.a) then Dropped
              else AtEnd(t, chain, pkt)
            else AtEnd(t, chain, pkt)
  {
    hide ExcludeNets, ExcludeIps, InSet, NetsCover, AtEnd;
    if spec.dropIPv6 {
      var r := Rule([IsIPv6], Drop, "drop-ipv6");
      RunOnly(t, chain, r, pkt);
      assert Applies(t, r, pkt) <==> Holds(t, r.matches[0], pkt);
    } else if spec.description == "mark-non-direct" {
      var mark := Rule([DstNotIn(spec.directSet)], SetMark(spec.mark), "mark-non-direct");
      var r2 := InChain(chain, ExcludeIps(spec.excludeAddrs)) + InChain(chain, [mark]);
      assert InChain(chain, LinesOf(spec)) == InChain(chain, ExcludeNets(spec.excludePrefixes)) + r2;
      RunExcludes(t, chain, spec.excludePrefixes, r2, pkt);
      RunExcludeIps(t, chain, spec.excludeAddrs, InChain(chain, [mark]), pkt);
      RunOnly(t, chain, mark, pkt);
      assert Applies(t, mark, pkt) <==> Holds(t, mark.matches[0], pkt);
    } else if spec.description == "isolate-inbound-from-home" {
      var r := Rule([InIface(spec.iifName), DstIn(spec.dropDstSet)], Drop, "isolate-inbound-from-home");
      RunOnly(t, chain, r, pkt);
      assert Applies(t, r, pkt) <==> Holds(t, r.matches[0], pkt) && Holds(t, r.matches[1], pkt);
    }
  }

  lemma RunOnly(t: Table, chain: string, r: Rule, pkt: Packet)
    ensures RunRules(t, chain, InChain(chain, [r]), pkt)
         == if !Applies(t, r, pkt) then AtEnd(t, chain, pkt)
            else match r.action
                 case Drop => Dropped
                 case Return => AtEnd(t, chain, pkt)
                 case SetMark(m) => AtEnd(t, chain, pkt.(mark := m))
  {
    assert InChain(chain, [r]) == [ChainRule(chain, r)] + [];
    RunFirst(t, chain, r, [], pkt);
  }

  /** The prerouting part of any table that declares ru_nets: IPv6 is dropped, the excluded destinations return,
      and what is not in the set gets the mark. */
  lemma RunPrerouting(t: Table, p: Policy, rest: seq<ChainRule>, pkt: Packet)
    requires RU_NETS in t.sets && p.tunnelEndpoint.Ip4?
    ensures RunRules(t, "prerouting", InChain("prerouting", PreroutingLines(p)) + rest, pkt)
         == match pkt.dst
            case V6 => Dropped
            case V4(a) =>
              if Excludes(p, a) then AtEnd(t, "prerouting", pkt)
              else if InSet(t, RU_NETS, a) then RunRules(t, "prerouting", rest, pkt)
              else RunRules(t, "prerouting", rest, pkt.(mark := MarkOf(p)))
  {
    hide RunRules, ExcludeNets, InSet, NetsCover, AtEnd;
    var c := "prerouting";
    var drop := Rule([IsIPv6], Drop, "drop-ipv6");
    var ep := Rule([DstIp(p.tunnelEndpoint)], Return, "exclude-endpoint");
    var mark := Rule([DstNotIn(RU_NETS)], SetMark(MarkOf(p)), "mark-non-direct");
    var r3 := [ChainRule(c, mark)] + rest;
    var r2 := [ChainRule(c, ep)] + r3;
    var r1 := InChain(c, ExcludeNets(p.lans)) + r2;
    assert InChain(c, PreroutingLines(p)) + rest == [ChainRule(c, drop)] + r1;
    RunFirst(t, c, drop, r1, pkt);
    assert Applies(t, drop, pkt) <==> Holds(t, drop.matches[0], pkt);
    RunExcludes(t, c, p.lans, r2, pkt);
    RunFirst(t, c, ep, r3, pkt);
    assert Applies(t, ep, pkt) <==> Holds(t, ep.matches[0], pkt);
    RunFirst(t, c, mark, rest, pkt);
    assert Applies(t, mark, pkt) <==> Holds(t, mark.matches[0], pkt);
  }

  // ----- prerouting

  /** How many policies of a history come before the first that excludes an address. */
  ghost function FirstExcluder(h: seq<Policy>, a: Addr): (n: nat)
    ensures n <= |h|
  {
    if h == [] || Excludes(h[0], a) then 0 else 1 + FirstExcluder(h[1..], a)
  }

  /** The destinations that the rules of a history leave unmarked: excluded by the oldest policy, or direct in any. */
  ghost predicate Spared(h: seq<Policy>, a: Addr)
    requires h != []
  {
    Excludes(h[0], a) || NetsCover(AllDirect(h), a)
  }

  /** The mark that the rules of a history leave: that of the last policy before the first excluder. */
  ghost function MarkAfter(h: seq<Policy>, a: Addr, direct: bool, mark: Mark): Mark {
    if direct || FirstExcluder(h, a) == 0 then mark else MarkBefore(h, a)
  }

  /** The mark of the last policy before the first excluder. */
  ghost function MarkBefore(h: seq<Policy>, a: Addr): Mark {
    var n := FirstExcluder(h, a);
    if n == 0 then 0 else MarkOf(h[n - 1])
  }

  ghost function MarkLeft(h: seq<Policy>, a: Addr, mark: Mark): Mark {
    MarkAfter(h, a, NetsCover(AllDirect(h), a), mark)
  }

  lemma MarkLeftIff(h: seq<Policy>, a: Addr, mark: Mark)
    requires h != []
    ensures Spared(h, a) ==> MarkLeft(h, a, mark) == mark
    ensures !Spared(h, a) ==> FirstExcluder(h, a) > 0 && MarkLeft(h, a, mark) == MarkBefore(h, a)
  {
    hide Excludes, NetsCover, MarkOf;
  }

  lemma MarkAfterFirst(h: seq<Policy>, a: Addr, direct: bool, mark: Mark)
    requires h != [] && !Excludes(h[0], a)
    ensures MarkAfter(h, a, direct, mark) == MarkAfter(h[1..], a, direct, if direct then mark else MarkOf(h[0]))
  {
    hide Excludes, MarkOf;
    assert FirstExcluder(h, a) == 1 + FirstExcluder(h[1..], a);
  }

  lemma {:induction false} RunPile(t: Table, h: seq<Policy>, pkt: Packet)
    requires RU_NETS in t.sets && (forall i :: 0 <= i < |h| ==> h[i].tunnelEndpoint.Ip4?)
    requires "prerouting" in t.chains && t.chains["prerouting"] == PREROUTING_DECL
    ensures RunRules(t, "prerouting", PileRules(h), pkt)
         == match pkt.dst
            case V6 => if h == [] then Accept(pkt.mark) else Dropped
            case V4(a) => Accept(MarkAfter(h, a, InSet(t, RU_NETS, a), pkt.mark))
  {
    if h != [] {
      var p, rest := h[0], ForwardRules(h[0]) + PileRules(h[1..]);
      assert PileRules(h) == InChain("prerouting", PreroutingLines(p)) + rest;
      hide PreroutingLines, RunRules, PileRules, Excludes, MarkOf, InSet, MarkAfter;
      RunPrerouting(t, p, rest, pkt);
      SkipForward(t, p, PileRules(h[1..]), pkt);
      RunPile(t, h[1..], pkt);
      SkipForward(t, p, PileRules(h[1..]), pkt.(mark := MarkOf(p)));
      RunPile(t, h[1..], pkt.(mark := MarkOf(p)));
      if pkt.dst.V4? {
        if Excludes(p, pkt.dst.a) {
          ExcludedKeeps(h, pkt.dst.a, InSet(t, RU_NETS, pkt.dst.a), pkt.mark);
        } else {
          MarkAfterFirst(h, pkt.dst.a, InSet(t, RU_NETS, pkt.dst.a), pkt.mark);
        }
      }
    }
  }

  lemma ExcludedKeeps(h: seq<Policy>, a: Addr, direct: bool, mark: Mark)
    requires h != [] && Excludes(h[0], a)
    ensures MarkAfter(h, a, direct, mark) == mark
  {
  }

  lemma SkipForward(t: Table, p: Policy, rest: seq<ChainRule>, pkt: Packet)
    ensures RunRules(t, "prerouting", ForwardRules(p) + rest, pkt) == RunRules(t, "prerouting", rest, pkt)
  {
    assert |"forward"| != |"prerouting"|;
    RunSkipsFirst(t, "prerouting", ForwardRules(p), rest, pkt);
  }

  /** The verdict of any history's table in prerouting: IPv6 is dropped; IPv4 keeps its mark if it is spared and
      else gets that of the last policy before the first excluder (MarkLeftIff). */
  lemma PilePrerouting(h: seq<Policy>, pkt: Packet)
    requires Pile(h)
    ensures RunHook(PileTable(h), "prerouting", pkt)
         == match pkt.dst
            case V6 => Dropped
            case V4(a) => Accept(MarkLeft(h, a, pkt.mark))
  {
    var t := PileTable(h);
    assert |"prerouting"| != |"forward"| && |RU_NETS| != |HOME_NETS|;
    assert t.sets[RU_NETS].elems == MaskedSet(AllDirect(h));
    RunPile(t, h, pkt);
    if pkt.dst.V4? {
      InMaskedSet(AllDirect(h), pkt.dst.a);
    }
    hide MaskedSet, PileRules, RunRules, NetsCover, Apart, AllDirect, AllLans, HomeLans;
  }

  /** Compiler correctness, prerouting: IPv6 is dropped; IPv4 gets the mark exactly if it goes to the tunnel. */
  lemma PreroutingMeaning(p: Policy, pkt: Packet)
    requires Renderable(p)
    ensures RunHook(RenderedTable(p), "prerouting", pkt)
         == match pkt.dst
            case V6 => Dropped
            case V4(a) => Accept(if GoesToTunnel(p, a) then MarkOf(p) else pkt.mark)
  {
    PileOne(p);
    One(p);
    hide RunHook, PileTable, Pile, NetsCover, AllDirect, MarkOf;
    PilePrerouting([p], pkt);
    if pkt.dst.V4? {
      MarkLeftIff([p], pkt.dst.a, pkt.mark);
      assert FirstExcluder([p], pkt.dst.a) == (if Excludes(p, pkt.dst.a) then 0 else 1);
    }
  }

  // ----- forward

  lemma ForwardApplies(h: seq<Policy>, pkt: Packet)
    requires Pile(h) && AnyInbound(h)
    ensures Applies(PileTable(h), FORWARD_LINE, pkt)
       <==> pkt.iif == DEFAULT_CLIENTS_IFACE && pkt.dst.V4? && NetsCover(HomeLans(h), pkt.dst.a)
  {
    hide NetsCover, MaskedSet, PileRules, Apart, AllDirect, AllLans, HomeLans, AnyInbound;
    var t, ms := PileTable(h), FORWARD_LINE.matches;
    assert |RU_NETS| != |HOME_NETS|;
    assert Applies(t, FORWARD_LINE, pkt) <==> Holds(t, ms[0], pkt) && Holds(t, ms[1], pkt);
    assert t.sets[HOME_NETS].elems == MaskedSet(HomeLans(h));
    if pkt.dst.V4? {
      InMaskedSet(HomeLans(h), pkt.dst.a);
    }
  }

  lemma {:induction false} RunForward(t: Table, h: seq<Policy>, pkt: Packet)
    ensures RunRules(t, "forward", PileRules(h), pkt)
         == if AnyInbound(h) && Applies(t, FORWARD_LINE, pkt) then Dropped else AtEnd(t, "forward", pkt)
  {
    if h != [] {
      var p, rest := h[0], PileRules(h[1..]);
      InboundFirst(h);
      assert PileRules(h) == InChain("prerouting", PreroutingLines(p)) + (ForwardRules(p) + rest);
      hide PreroutingLines, RunRules, PileRules, Applies, AtEnd, AnyInbound;
      assert |"forward"| != |"prerouting"|;
      RunSkipsFirst(t, "forward", InChain("prerouting", PreroutingLines(p)), ForwardRules(p) + rest, pkt);
      RunForward(t, h[1..], pkt);
      if InboundManaged(p) {
        assert ForwardRules(p) == [ChainRule("forward", FORWARD_LINE)];
        RunFirst(t, "forward", FORWARD_LINE, rest, pkt);
      } else {
        assert ForwardRules(p) + rest == rest;
      }
    }
  }

  lemma InboundFirst(h: seq<Policy>)
    requires h != []
    ensures AnyInbound(h) <==> InboundManaged(h[0]) || AnyInbound(h[1..])
  {
    if i :| 0 <= i < |h| && InboundManaged(h[i]) {
      assert i > 0 ==> h[1..][i - 1] == h[i];
    }
    if i :| 0 <= i < |h[1..]| && InboundManaged(h[1..][i]) {
      assert h[i + 1] == h[1..][i];
    }
  }

  /** What the forward hook of a history's table drops. */
  ghost predicate IsolatedBy(h: seq<Policy>, pkt: Packet) {
    pkt.iif == DEFAULT_CLIENTS_IFACE && pkt.dst.V4? && NetsCover(HomeLans(h), pkt.dst.a)
  }

  /** The verdict of any history's table in forward: the inbound clients cannot reach the home networks of any
      policy with an inbound interface; nothing else is affected. */
  lemma PileForward(h: seq<Policy>, pkt: Packet)
    requires Pile(h)
    ensures RunHook(PileTable(h), "forward", pkt) == if IsolatedBy(h, pkt) then Dropped else Accept(pkt.mark)
  {
    var t := PileTable(h);
    assert |"prerouting"| != |"forward"|;
    if AnyInbound(h) {
      RunForward(t, h, pkt);
      ForwardApplies(h, pkt);
    } else {
      NoInbound(h);
    }
    hide MaskedSet, PileRules, RunRules, Apart, AllDirect, AllLans, HomeLans, Applies;
  }

  /** What the forward hook does for a policy. */
  ghost predicate Isolated(p: Policy, pkt: Packet) {
    InboundManaged(p) && pkt.iif == DEFAULT_CLIENTS_IFACE && pkt.dst.V4? && NetsCover(p.lans, pkt.dst.a)
  }

  /** Compiler correctness, forward: with an inbound interface, its clients cannot reach the home networks;
      nothing else is affected. */
  lemma ForwardMeaning(p: Policy, pkt: Packet)
    requires Renderable(p)
    ensures RunHook(RenderedTable(p), "forward", pkt) == if Isolated(p, pkt) then Dropped else Accept(pkt.mark)
  {
    PileOne(p);
    One(p);
    hide RunHook, PileTable, Pile, HomeLans;
    PileForward([p], pkt);
  }

  // ----- from the list on the command line to the verdict

  ghost function Nets4(ps: seq<Prefix>): (nets: seq<Net>)
    ensures |nets| == |ps| && forall i :: 0 <= i < |ps| ==> nets[i] == Net4(ps[i])
  {
    seq(|ps|, i requires 0 <= i < |ps| => Net4(ps[i]))
  }

  lemma NetsCoverIff(ps: seq<Prefix>, a: Addr)
    ensures NetsCover(Nets4(ps), a) <==> Covers(ps, a)
  {
    hide In;
    if Covers(ps, a) {
      var i :| 0 <= i < |ps| && In(a, ps[i]);
      assert Nets4(ps)[i].Net4? && In(a, Nets4(ps)[i].p);
    }
  }

  /** The policy that gotun apply builds from a prefix list: collapsed, with the default mark, table and priority. */
  ghost function CliPolicy(prefs: seq<Prefix>, endpoint: Ip, lans: seq<Net>, tunnelUp: bool,
                           wg: WireGuardConfig, inbound: WireGuardConfig): Policy {
    Policy(Nets4(Collapsed(prefs)), DEFAULT_TUNNEL_IFACE, endpoint, lans,
           DEFAULT_MARK, DEFAULT_TABLE_ID, DEFAULT_RULE_PRIORITY, tunnelUp, wg, inbound)
  }

  /** The collapsed prefixes never overlap. */
  lemma CollapsedApart(prefs: seq<Prefix>)
    ensures AllNet4(Nets4(Collapsed(prefs))) && Apart(MaskedSet(Nets4(Collapsed(prefs))))
  {
    CollapsedIsCanonical(prefs);
    hide First, End, Collapsed;
    var ps, nets := Collapsed(prefs), Nets4(Collapsed(prefs));
    forall p, q | p in MaskedSet(nets) && q in MaskedSet(nets) ensures p == q || Disjoint(p, q) {
      var i :| 0 <= i < |nets| && Masked(nets[i].p) == p;
      var j :| 0 <= j < |nets| && Masked(nets[j].p) == q;
      CanonicalApart(ps, i, j);
    }
  }

  lemma CanonicalApart(ps: seq<Prefix>, i: nat, j: nat)
    requires Canonical(ps) && i < |ps| && j < |ps|
    ensures Masked(ps[i]) == ps[i] && (ps[i] == ps[j] || Disjoint(ps[i], ps[j]))
  {
  }

  /** End to end: replaying the script for a prefix list succeeds exactly if the LANs fit the home set, and then a
      packet without a mark is dropped if it is IPv6 and else marked exactly when its destination is outside every
      LAN, is not the endpoint, and is outside every prefix of the original list. */
  lemma EndToEnd(rs: Ruleset, prefs: seq<Prefix>, endpoint: Ip, lans: seq<Net>, tunnelUp: bool,
                 wg: WireGuardConfig, inbound: WireGuardConfig, pkt: Packet)
    requires endpoint.Ip4? && AllNet4(lans) && (inbound.privateKey != "" ==> lans != []) && pkt.mark == 0
    ensures var spec := NftOf(CliPolicy(prefs, endpoint, lans, tunnelUp, wg, inbound));
            var after := ExecAll(rs, ApplyScript(OWNED in rs, spec));
            && (after.Some? <==> inbound.privateKey == "" || Apart(MaskedSet(lans)))
            && (after.Some? ==>
                  OWNED in after.value &&
                  RunHook(after.value[OWNED], "prerouting", pkt)
                    == match pkt.dst
                       case V6 => Dropped
                       case V4(a) =>
                         Accept(if !NetsCover(lans, a) && endpoint != Ip4(a) && !Covers(prefs, a) then 1 else 0))
  {
    var p := CliPolicy(prefs, endpoint, lans, tunnelUp, wg, inbound);
    CollapsedApart(prefs);
    assert Renderable(p) <==> inbound.privateKey == "" || Apart(MaskedSet(lans));
    hide RunHook, RenderedTable, ExecAll, ApplyScript, NftOf, NetsCover, MaskedSet, Apart, Covers, Renderable;
    ScriptBuildsTable(rs, p);
    if Renderable(p) {
      PreroutingMeaning(p, pkt);
    }
    if pkt.dst.V4? {
      NetsCoverIff(Collapsed(prefs), pkt.dst.a);
      CollapsedUnion(prefs);
      assert pkt.dst.a in Union(Collapsed(prefs)) <==> pkt.dst.a in Union(prefs);
    }
  }
}
