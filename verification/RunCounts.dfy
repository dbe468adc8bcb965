/** What the number of changes that an apply reports means: exactly what was written, and nothing if it is zero. */
module RunCounts {
  import opened Policy
  import opened NftPile
  import opened Routing
  import opened RuleListing
  import opened Kernel
  import opened Reconcile
  import opened Runs
  import opened RunTheorems

  // ----- no change reported, nothing changed

  lemma {:induction false} SysctlZero(k: State, f: Faults, specs: seq<SysctlSpec>)
    requires SysctlSteps(k, f, specs).changes == 0
    ensures SysctlSteps(k, f, specs).k == k
    decreases |specs|
  {
    if specs != [] && SysctlStep(k, f, specs[0]).ok {
      SysctlZero(SysctlStep(k, f, specs[0]).k, f, specs[1..]);
    }
  }

  lemma {:induction false} RulesZero(k: State, f: Faults, rules: seq<IPRuleSpec>)
    requires RuleSteps(k, f, rules).ok && RuleSteps(k, f, rules).changes == 0
    ensures RuleSteps(k, f, rules).k == k
    decreases |rules|
  {
    hide RuleShown, RulesShown, RuleAdded, RuleDeleted;
    if rules != [] {
      RulesZero(RuleStep(k, f, rules[0]).k, f, rules[1..]);
    }
  }

  lemma {:induction false} TablesZero(k: State, f: Faults, groups: seq<Group>)
    requires TableSteps(k, f, groups).ok && TableSteps(k, f, groups).changes == 0
    ensures TableSteps(k, f, groups).k == k
    decreases |groups|
  {
    hide TableRoutesMatchSpec, RoutesShown, RouteAdds, RoutesFlushed;
    if groups != [] {
      TablesZero(TableStep(k, f, groups[0]).k, f, groups[1..]);
    }
  }

  lemma NftZero(k: State, f: Faults, spec: NftSpec)
    requires NftStep(k, f, spec).ok && NftStep(k, f, spec).changes == 0
    ensures NftStep(k, f, spec).k == k
  {
    hide Listed, RanScript;
  }

  lemma RoutingZero(k: State, f: Faults, rules: seq<IPRuleSpec>, routes: seq<RouteSpec>)
    requires RoutingSteps(k, f, rules, routes).ok && RoutingSteps(k, f, rules, routes).changes == 0
    ensures RoutingSteps(k, f, rules, routes).k == k
  {
    RulesZero(k, f, rules);
    TablesZero(k, f, GroupAll([], routes));
    hide RuleSteps, TableSteps, GroupAll;
  }

  /** A successful apply that reports no change has changed nothing, from any state whatever, for any policy with WireGuard
      unmanaged, and whichever calls fail unnoticed. */
  lemma NoChangeNoEffect(k: State, w: World, p: Policy)
    requires p.wireGuard.privateKey == "" && p.inboundWireGuard.privateKey == ""
    requires ApplyPolicy(k, w, p).stage == Done && ApplyPolicy(k, w, p).changes == 0
    ensures ApplyPolicy(k, w, p).k == k
  {
    if !Sound(p) {
      UncompiledApply(k, w, p);
    }
    ApplyStages(k, w, p);
    hide ApplyPolicy, SysctlSteps, Sysctls, NftStep, NftOf, RoutingSteps, RoutesForTunnel, Sound;
    SysctlZero(k, w.fails, Sysctls());
    NftZero(k, w.fails, NftOf(p));
    RoutingZero(k, w.fails, [IPRuleSpec(PriorityOf(p), MarkOf(p), TableOf(p))],
                RoutesForTunnel(TableOf(p), IfaceOf(p), p.tunnelUp));
  }

  // ----- what is counted

  /** The sysctls that an apply writes. */
  ghost function SysctlsWritten(k: State, f: Faults): set<SysctlSpec> {
    WrittenSpecs(k, f, [SysctlSpec("net.ipv4.ip_forward", "1"), SysctlSpec("net.ipv6.conf.all.disable_ipv6", "1"),
                        SysctlSpec("net.ipv6.conf.default.disable_ipv6", "1")])
  }

  lemma RoutingCounts(k: State, f: Faults, iface: string, up: bool)
    requires OwnedRouting(k) && RoutingSteps(k, f, [OWN_RULE_SPEC], RoutesForTunnel(100, iface, up)).ok
    ensures RoutingSteps(k, f, [OWN_RULE_SPEC], RoutesForTunnel(100, iface, up)).changes
         == (if OwnPart(k.rules) == [OWN_RULE] && !f(RuleShow(100)) then 0 else 1)
            + (if RouteSet(k) == WantSet(iface, up) && !f(RouteShow(100)) then 0 else 1)
  {
    RuleStepOwned(k, f);
    GroupsOfRoutes(iface, up);
    var a := RuleSteps(k, f, [OWN_RULE_SPEC]).k;
    assert RouteSet(a) == RouteSet(k);
    hide RuleSteps, TableStep, RoutesForTunnel, GroupAll, OwnPart, ForeignPart, OwnedRules, RouteSet, WantSet;
    OneTable(a, f, Group(100, RoutesForTunnel(100, iface, up)));
    TableStepOwned(a, f, iface, up);
  }

  /** From any owned state a successful apply reports exactly: one change for each sysctl that was written, one if the table
      was not kept, one if the owned rule was not seen to be there, one if the routes were not seen to be those wanted after
      WireGuard, and what WireGuard reports for the interfaces it manages. */
  lemma ApplyCounts(k: State, h: seq<Policy>, w: World, p: Policy)
    requires Owned(k, h) && DefaultNumbers(p) && ApplyPolicy(k, w, p).stage == Done
    ensures var iface := if p.tunnelInterface == "" then "wg-exit" else p.tunnelInterface;
            ApplyPolicy(k, w, p).changes
              == |SysctlsWritten(k, w.fails)|
                 + (if HowOf(h, w.fails(NftList), p) == Kept then 0 else 1)
                 + (if p.wireGuard.privateKey == "" then 0 else w.wgChanges(iface))
                 + (if p.inboundWireGuard.privateKey == "" then 0 else w.wgChanges("wg-clients"))
                 + (if OwnPart(k.rules) == [OWN_RULE] && !w.fails(RuleShow(100)) then 0 else 1)
                 + (if AfterWgRoutes(k, p) == WantSet(iface, p.tunnelUp) && !w.fails(RouteShow(100)) then 0 else 1)
  {
    if !Sound(p) {
      UncompiledApply(k, w, p);
    }
    assert IfaceOf(p) == if p.tunnelInterface == "" then "wg-exit" else p.tunnelInterface;
    hide ApplyPolicy, AfterSysctl, AfterNft, AfterWg, AfterClients, AfterRouting, Sound, OwnedRouting, OwnPart, Built,
      PileTable, WantSet, AfterWgRoutes, HowOf, SysctlsWritten, IfaceOf, DefaultNumbers;
    ApplyStages(k, w, p);
    SysctlCounts(k, w);
    NftCounts(k, h, w, p);
    WgCounts(k, w, p);
    RoutingStageCounts(k, w, p);
  }

  lemma RoutingStageCounts(k: State, w: World, p: Policy)
    requires OwnedRouting(k) && Sound(p) && DefaultNumbers(p) && AfterWg(k, w, p).ok && AfterRouting(k, w, p).ok
    ensures AfterRouting(k, w, p).changes
         == (if OwnPart(k.rules) == [OWN_RULE] && !w.fails(RuleShow(100)) then 0 else 1)
            + (if AfterWgRoutes(k, p) == WantSet(IfaceOf(p), p.tunnelUp) && !w.fails(RouteShow(100)) then 0 else 1)
  {
    StagesOwned(k, w, p);
    var b := AfterClients(k, w, p).k;
    assert RouteSet(b) == AfterWgRoutes(k, p);
    hide AfterClients, AfterWg, RoutingSteps, RoutesForTunnel, Sound, OwnedRouting, OwnPart, RouteSet, WantSet, AfterWgRoutes,
      IfaceOf;
    RoutingCounts(b, w.fails, IfaceOf(p), p.tunnelUp);
  }

  /** The routes of the owned table but those of a tunnel interface that is taken down. */
  ghost function AfterWgRoutes(k: State, p: Policy): set<Route> {
    set r | r in RoutesIn(k, 100) && !TakenDown(p, r)
  }

  lemma SysctlCounts(k: State, w: World)
    ensures AfterSysctl(k, w).ok ==> AfterSysctl(k, w).changes == |SysctlsWritten(k, w.fails)|
  {
    SysctlKeysDistinct();
    SysctlStepsIff(k, w.fails, Sysctls());
    hide SysctlSteps, WrittenSpecs;
  }

  lemma NftCounts(k: State, h: seq<Policy>, w: World, p: Policy)
    requires Tracks(k, h) && Sound(p)
    ensures AfterNft(k, w, p).ok ==> AfterNft(k, w, p).changes == if HowOf(h, w.fails(NftList), p) == Kept then 0 else 1
  {
    SysctlStageFrame(k, w);
    hide AfterSysctl, NftStep, NftOf, Built, PileTable, HowOf, Pile, Sound;
    NftStepCases(AfterSysctl(k, w).k, h, w.fails, p);
  }

  lemma WgCounts(k: State, w: World, p: Policy)
    ensures AfterWg(k, w, p).changes == if p.wireGuard.privateKey == "" then 0 else w.wgChanges(IfaceOf(p))
    ensures AfterClients(k, w, p).changes == if p.inboundWireGuard.privateKey == "" then 0 else w.wgChanges("wg-clients")
  {
    WgEffect(AfterNft(k, w, p).k, w, StateOf(p).wireGuard);
    WgEffect(AfterWg(k, w, p).k, w, StateOf(p).wireGuardClients);
    hide AfterNft, NftOf, RoutesForTunnel;
  }
}
