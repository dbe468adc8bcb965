/** The main results about runs of applies and link events. */
module RunTheorems {
  import opened Ipv4
  import opened Policy
  import opened NftKernel
  import opened NftPile
  import opened NftLive
  import opened NftDecision
  import opened NftSoundness
  import opened Routing
  import opened RuleListing
  import opened Kernel
  import opened Reconcile
  import opened Runs

  // ----- what each stage keeps

  lemma WgOwned(k: State, w: World, spec: WireGuardSpec)
    requires OwnedRoutes(k)
    ensures var o := WgStep(k, w, spec);
            && o.k == k.(links := o.k.links, routes := o.k.routes)
            && OwnedRoutes(o.k)
            && (forall r :: r in RoutesIn(o.k, 100) <==> r in RoutesIn(k, 100) && !(o.ok && TakesDown(spec, r)))
  {
    WgEffect(k, w, spec);
    var next := WgStep(k, w, spec).k;
    assert forall n :: n in next.links ==> ValidName(n);
    forall r
      ensures r in RoutesIn(next, 100) <==> r in RoutesIn(k, 100) && !(WgStep(k, w, spec).ok && TakesDown(spec, r))
      ensures r in RoutesIn(next, 100) ==> OwnedRoute(r, next.links)
    {
      assert OnlyTaken(k, w, spec, 100, r);
      assert r in RoutesIn(k, 100) ==> OwnedRoute(r, k.links);
    }
  }

  lemma RoutingOwned(k: State, f: Faults, iface: string, up: bool)
    requires OwnedRouting(k)
    ensures var o := RoutingSteps(k, f, [OWN_RULE_SPEC], RoutesForTunnel(100, iface, up));
            && o.k == k.(rules := o.k.rules, routes := o.k.routes)
            && OwnedRouting(o.k) && ForeignPart(o.k.rules) == ForeignPart(k.rules)
            && (o.ok ==> OwnPart(o.k.rules) == [OWN_RULE] && BLACKHOLE in RoutesIn(o.k, 100))
            && (o.ok ==> (RouteSet(o.k) == WantSet(iface, up)
                          <==> !f(RouteFlush(100)) || up || forall r :: r in RoutesIn(k, 100) ==> r == BLACKHOLE))
            && ((OwnPart(k.rules) == [OWN_RULE] && RouteSet(k) == WantSet(iface, up) && !f(RuleShow(100)) && !f(RouteShow(100)))
                ==> o == Outcome(k, 0, true))
  {
    RuleStepOwned(k, f);
    hide RuleSteps, TableStep, RoutesForTunnel, GroupAll, OwnedRules, OwnPart, ForeignPart;
    var a := RuleSteps(k, f, [OWN_RULE_SPEC]);
    GroupsOfRoutes(iface, up);
    if a.ok {
      var g := Group(100, RoutesForTunnel(100, iface, up));
      TableStepOwned(a.k, f, iface, up);
      OneTable(a.k, f, g);
    }
  }

  lemma OneTable(k: State, f: Faults, g: Group)
    ensures TableSteps(k, f, [g]) == TableStep(k, f, g)
  {
    assert [g][1..] == [];
    hide TableStep;
  }

  // ----- the stages of one apply

  ghost function AfterWg(k: State, w: World, p: Policy): Outcome {
    WgStep(AfterNft(k, w, p).k, w, StateOf(p).wireGuard)
  }

  ghost function AfterClients(k: State, w: World, p: Policy): Outcome {
    WgStep(AfterWg(k, w, p).k, w, StateOf(p).wireGuardClients)
  }

  ghost function AfterRouting(k: State, w: World, p: Policy): Outcome {
    RoutingSteps(AfterClients(k, w, p).k, w.fails, [IPRuleSpec(PriorityOf(p), MarkOf(p), TableOf(p))],
                 RoutesForTunnel(TableOf(p), IfaceOf(p), p.tunnelUp))
  }

  lemma ApplyStages(k: State, w: World, p: Policy)
    requires Sound(p)
    ensures var a := ApplyPolicy(k, w, p);
      var n1 := AfterSysctl(k, w).changes;
      var n2 := n1 + AfterNft(k, w, p).changes;
      var n3 := n2 + AfterWg(k, w, p).changes;
      var n4 := n3 + AfterClients(k, w, p).changes;
      if !AfterSysctl(k, w).ok then a == Applied(AfterSysctl(k, w).k, n1, SysctlStage)
      else if !AfterNft(k, w, p).ok then a == Applied(AfterNft(k, w, p).k, n2, NftStage)
      else if !AfterWg(k, w, p).ok then a == Applied(AfterWg(k, w, p).k, n3, WireGuardStage)
      else if !AfterClients(k, w, p).ok then a == Applied(AfterClients(k, w, p).k, n4, WireGuardClientsStage)
      else
        a == Applied(AfterRouting(k, w, p).k, n4 + AfterRouting(k, w, p).changes,
                     if AfterRouting(k, w, p).ok then Done else RoutingStage)
  {
    CompileIff(p);
    hide SysctlSteps, NftStep, WgStep, RoutingSteps, NftOf, RoutesForTunnel, Sysctls, Compile;
  }

  lemma UncompiledApply(k: State, w: World, p: Policy)
    requires !Sound(p)
    ensures ApplyPolicy(k, w, p) == Applied(k, 0, PolicyStage)
  {
    CompileIff(p);
  }

  lemma SysctlStageFrame(k: State, w: World)
    ensures AfterSysctl(k, w).k == k.(sysctls := AfterSysctl(k, w).k.sysctls)
  {
    SysctlFrame(k, w.fails, Sysctls());
  }

  lemma NftStageFrame(k: State, w: World, p: Policy)
    ensures AfterNft(k, w, p).k == AfterSysctl(k, w).k.(nft := AfterNft(k, w, p).k.nft)
  {
    hide SysctlSteps, NftOf, Sysctls, ApplyScript, SemanticMatch, Listing, ExecAll;
  }

  /** Which routes of the owned table reach the routing stage. */
  ghost predicate TakenDown(p: Policy, r: Route) {
    p.wireGuard.privateKey != "" && !p.tunnelUp && r.hop == Dev(IfaceOf(p))
  }

  lemma StagesOwned(k: State, w: World, p: Policy)
    requires OwnedRouting(k) && Sound(p) && DefaultNumbers(p)
    ensures OwnedRouting(AfterNft(k, w, p).k) && RoutesIn(AfterNft(k, w, p).k, 100) == RoutesIn(k, 100)
    ensures OwnedRouting(AfterWg(k, w, p).k) && AfterWg(k, w, p).k.nft == AfterNft(k, w, p).k.nft
    ensures OwnedRouting(AfterClients(k, w, p).k) && AfterClients(k, w, p).k.nft == AfterNft(k, w, p).k.nft
    ensures AfterClients(k, w, p).k.sysctls == AfterSysctl(k, w).k.sysctls && AfterClients(k, w, p).k.rules == k.rules
    ensures AfterWg(k, w, p).k.rules == k.rules && AfterNft(k, w, p).k.rules == k.rules
    ensures AfterWg(k, w, p).ok ==>
              forall r :: r in RoutesIn(AfterClients(k, w, p).k, 100) <==> r in RoutesIn(k, 100) && !TakenDown(p, r)
  {
    SysctlStageFrame(k, w);
    NftStageFrame(k, w, p);
    hide AfterSysctl, AfterNft, WgStep, OwnedRules, NftOf, RoutesForTunnel, IfaceOf;
    assert OwnedRoutes(AfterNft(k, w, p).k);
    WgOwned(AfterNft(k, w, p).k, w, StateOf(p).wireGuard);
    WgOwned(AfterWg(k, w, p).k, w, StateOf(p).wireGuardClients);
  }

  lemma RoutingStageOwned(k: State, w: World, p: Policy)
    requires OwnedRouting(k) && Sound(p) && DefaultNumbers(p)
    ensures var b, o := AfterClients(k, w, p).k, AfterRouting(k, w, p);
            && o.k == b.(rules := o.k.rules, routes := o.k.routes)
            && OwnedRouting(o.k) && ForeignPart(o.k.rules) == ForeignPart(k.rules)
            && (o.ok ==> OwnPart(o.k.rules) == [OWN_RULE] && BLACKHOLE in RoutesIn(o.k, 100))
            && (o.ok ==> (RouteSet(o.k) == WantSet(IfaceOf(p), p.tunnelUp)
                  <==> !w.fails(RouteFlush(100)) || p.tunnelUp || forall r :: r in RoutesIn(b, 100) ==> r == BLACKHOLE))
  {
    StagesOwned(k, w, p);
    hide AfterClients, RoutingSteps, RouteSet, WantSet, OwnedRouting, OwnPart, ForeignPart, RoutesForTunnel;
    RoutingOwned(AfterClients(k, w, p).k, w.fails, IfaceOf(p), p.tunnelUp);
  }

  // ----- invariant of every run

  lemma ApplyRouting(k: State, w: World, p: Policy)
    requires OwnedRouting(k) && DefaultNumbers(p)
    ensures var a := ApplyPolicy(k, w, p).k; OwnedRouting(a) && ForeignPart(a.rules) == ForeignPart(k.rules)
  {
    if Sound(p) {
      ApplyStages(k, w, p);
      SysctlStageFrame(k, w);
      assert OwnedRouting(AfterSysctl(k, w).k);
      hide ApplyPolicy, AfterSysctl, AfterNft, AfterWg, AfterClients, AfterRouting, OwnedRouting, ForeignPart, Sound;
      StagesOwned(k, w, p);
      RoutingStageOwned(k, w, p);
    } else {
      UncompiledApply(k, w, p);
    }
  }

  lemma LongerBuilt(h: seq<Policy>, blind: bool, p: Policy)
    requires (h != [] ==> Built(h)) && Sound(p) && DefaultNumbers(p) && Pile(Longer(h, blind, p))
    ensures Built(Longer(h, blind, p))
  {
    hide Pile, Recognised, Sound, DefaultNumbers;
  }

  lemma NftStageTracks(k: State, h: seq<Policy>, w: World, p: Policy)
    requires Tracks(k, h) && Sound(p) && DefaultNumbers(p)
    ensures Tracks(AfterSysctl(k, w).k, h)
    ensures AfterNft(k, w, p).ok ==> Tracks(AfterNft(k, w, p).k, Longer(h, w.fails(NftList), p))
    ensures !AfterNft(k, w, p).ok ==> AfterNft(k, w, p).k == AfterSysctl(k, w).k
  {
    SysctlStageFrame(k, w);
    hide AfterSysctl, NftStep, NftOf, Pile, PileTable, Built, Longer, HowOf, Sound, DefaultNumbers;
    NftStepCases(AfterSysctl(k, w).k, h, w.fails, p);
    if AfterNft(k, w, p).ok {
      LongerBuilt(h, w.fails(NftList), p);
      LongerSome(h, w.fails(NftList), p);
    }
  }

  lemma LongerSome(h: seq<Policy>, blind: bool, p: Policy)
    ensures Longer(h, blind, p) != []
  {
  }

  /** Every apply, however it ends, leaves the table of the next history. */
  lemma ApplyTracks(k: State, h: seq<Policy>, w: World, p: Policy)
    requires Tracks(k, h) && DefaultNumbers(p) && OwnedRouting(k)
    ensures Tracks(ApplyPolicy(k, w, p).k, NextHistory(k, h, Apply(p, w)))
  {
    if Sound(p) {
      ApplyStages(k, w, p);
      hide ApplyPolicy, AfterSysctl, AfterNft, AfterWg, AfterClients, AfterRouting, OwnedRouting, Sound, DefaultNumbers, Longer,
        Built, PileTable;
      NftStageTracks(k, h, w, p);
      StagesOwned(k, w, p);
      RoutingStageOwned(k, w, p);
    } else {
      UncompiledApply(k, w, p);
    }
  }

  /** Every apply of a policy with the default numbers, whichever of its calls fail, and every link event keep the owned
      objects owned, with the next history, and the foreign rules as they are. */
  lemma StepKeepsOwned(k: State, h: seq<Policy>, e: Event)
    requires Owned(k, h) && Allowed(e)
    ensures Owned(Step(k, e), NextHistory(k, h, e))
    ensures ForeignPart(Step(k, e).rules) == ForeignPart(k.rules)
  {
    match e {
      case Apply(p, w) =>
        hide ApplyPolicy, OwnedRouting, Tracks, DefaultNumbers, NextHistory;
        ApplyRouting(k, w, p);
        ApplyTracks(k, h, w, p);
      case Lost(name) =>
        hide Built, PileTable, OwnedRules;
        forall r | r in RoutesIn(LinkLost(k, name), 100) ensures OwnedRoute(r, k.links - {name}) {
          LostRoute(k, name, 100, r);
          assert OwnedRoute(r, k.links);
        }
      case Back(name) =>
        hide Built, PileTable, OwnedRules;
        forall r | r in RoutesIn(k, 100) ensures OwnedRoute(r, k.links + {name}) {
          assert OwnedRoute(r, k.links);
        }
    }
  }

  lemma {:induction false} RunKeepsOwned(k: State, h: seq<Policy>, es: seq<Event>)
    requires Owned(k, h) && forall i :: 0 <= i < |es| ==> Allowed(es[i])
    ensures Owned(RunEvents(k, es), RunHistory(k, h, es))
    ensures ForeignPart(RunEvents(k, es).rules) == ForeignPart(k.rules)
    decreases |es|
  {
    if es != [] {
      StepKeepsOwned(k, h, es[0]);
      RunKeepsOwned(Step(k, es[0]), NextHistory(k, h, es[0]), es[1..]);
    }
  }

  // ----- convergence

  /** IPv4 is forwarded, IPv6 is off. */
  ghost predicate SysctlsOn(k: State) {
    && SysctlIs(k, SysctlSpec("net.ipv4.ip_forward", "1"))
    && SysctlIs(k, SysctlSpec("net.ipv6.conf.all.disable_ipv6", "1"))
    && SysctlIs(k, SysctlSpec("net.ipv6.conf.default.disable_ipv6", "1"))
  }

  lemma SysctlsOnIff(k: State)
    ensures AllSet(k, Sysctls()) <==> SysctlsOn(k)
  {
    var s := Sysctls();
    hide SysctlIs;
    assert AllSet(k, s) ==> SysctlIs(k, s[0]) && SysctlIs(k, s[1]) && SysctlIs(k, s[2]);
  }

  /** What every successful apply reaches. */
  ghost predicate Settled(k: State) {
    OwnPart(k.rules) == [FwRule(100, 1, 100)] && Route(Blackhole, 100) in RoutesIn(k, 100) && SysctlsOn(k)
  }

  ghost predicate RoutesReached(k: State, p: Policy) {
    RouteSet(k) == WantSet(IfaceOf(p), p.tunnelUp)
  }

  ghost predicate MarksReached(k: State, p: Policy) {
    Renderable(p) && OWNED in k.nft && SameAtHook(k.nft[OWNED], RenderedTable(p), "prerouting")
  }

  ghost predicate ForwardReached(k: State, p: Policy) {
    Renderable(p) && OWNED in k.nft && SameAtHook(k.nft[OWNED], RenderedTable(p), "forward")
  }

  /** The table is kept, piled on or rebuilt, and right in prerouting. */
  ghost predicate MarksRight(h: seq<Policy>, blind: bool, p: Policy) {
    match HowOf(h, blind, p)
    case Kept => KeptRight(h, p)
    case PiledOn => PiledRight(h, p)
    case Rebuilt => true
  }

  /** The table is kept, piled on or rebuilt, and right in forward. */
  ghost predicate ForwardRight(h: seq<Policy>, blind: bool, p: Policy) {
    match HowOf(h, blind, p)
    case Kept => AnyInbound(h) ==> InboundManaged(p)
    case PiledOn => if InboundManaged(p) then forall a: Addr :: NetsCover(HomeLans(h), a) ==> NetsCover(p.lans, a)
                    else !AnyInbound(h)
    case Rebuilt => true
  }

  /** With the tunnel down, a flush that fails unnoticed is harmless only if WireGuard takes the other routes away. */
  ghost predicate RoutesRight(k: State, w: World, p: Policy) {
    p.tunnelUp || !w.fails(RouteFlush(100)) || forall r :: r in RoutesIn(k, 100) ==> r == BLACKHOLE || TakenDown(p, r)
  }

  lemma TableRightIff(h: seq<Policy>, blind: bool, p: Policy)
    requires (h != [] ==> Built(h)) && Sound(p) && DefaultNumbers(p) && Pile(Longer(h, blind, p))
    ensures Renderable(p)
    ensures SameAtHook(PileTable(Longer(h, blind, p)), RenderedTable(p), "prerouting") <==> MarksRight(h, blind, p)
    ensures SameAtHook(PileTable(Longer(h, blind, p)), RenderedTable(p), "forward") <==> ForwardRight(h, blind, p)
  {
    RenderedIff(p);
    hide SameAtHook, PileTable, RenderedTable, Pile, Renderable, KeptRight, PiledRight, Recognised, Sound, NetsCover, MarkOf,
      TableOf, PriorityOf;
    match HowOf(h, blind, p) {
      case Kept =>
        KeptMarksIff(h, p);
        KeptForwardIff(h, p);
      case PiledOn =>
        assert Pile(h);
        PiledMarksIff(h, p);
        PiledForwardIff(h, p);
      case Rebuilt =>
        SameAsItself(RenderedTable(p), "prerouting");
        SameAsItself(RenderedTable(p), "forward");
    }
  }

  lemma SameAsItself(t: Table, hook: string)
    ensures SameAtHook(t, t, hook)
  {
  }

  /** One successful apply from any owned state: what it always reaches, and exactly when routes, marks and forwarding
      are those of its policy. */
  lemma ApplyReaches(k: State, h: seq<Policy>, w: World, p: Policy)
    requires Owned(k, h) && DefaultNumbers(p) && ApplyPolicy(k, w, p).stage == Done
    ensures var a := ApplyPolicy(k, w, p).k;
            && Sound(p) && Renderable(p) && Settled(a) && Owned(a, Longer(h, w.fails(NftList), p))
            && (p.tunnelUp ==> RoutesReached(a, p))
            && (RoutesReached(a, p) <==> RoutesRight(k, w, p))
            && (MarksReached(a, p) <==> MarksRight(h, w.fails(NftList), p))
            && (ForwardReached(a, p) <==> ForwardRight(h, w.fails(NftList), p))
  {
    if !Sound(p) {
      UncompiledApply(k, w, p);
    }
    ApplyStages(k, w, p);
    ApplyRouting(k, w, p);
    ApplyTracks(k, h, w, p);
    hide ApplyPolicy, AfterSysctl, AfterNft, AfterWg, AfterClients, AfterRouting, OwnedRouting, Sound, DefaultNumbers, Longer,
      Built, PileTable, MarksRight, ForwardRight, RoutesRight, RouteSet, WantSet, SameAtHook, AllSet, SysctlsOn;
    SysctlStageReached(k, w);
    RoutesStageIff(k, w, p);
    SysctlsOnIff(ApplyPolicy(k, w, p).k);
    var a, g := ApplyPolicy(k, w, p).k, Longer(h, w.fails(NftList), p);
    assert Owned(a, g);
    LongerSome(h, w.fails(NftList), p);
    TracksPile(a, g);
    TableRightIff(h, w.fails(NftList), p);
  }

  lemma TracksPile(k: State, h: seq<Policy>)
    requires Tracks(k, h) && h != []
    ensures Pile(h) && OWNED in k.nft && k.nft[OWNED] == PileTable(h)
  {
  }

  /** What is set in sysctl depends on that part of the state alone. */
  lemma SysctlStageReached(k: State, w: World)
    requires AfterSysctl(k, w).ok
    ensures forall a: State :: a.sysctls == AfterSysctl(k, w).k.sysctls ==> AllSet(a, Sysctls())
  {
    SysctlKeysDistinct();
    SysctlReached(k, w.fails, Sysctls());
    hide SysctlSteps, Sysctls;
    forall a: State | a.sysctls == AfterSysctl(k, w).k.sysctls ensures AllSet(a, Sysctls()) {
      forall i | 0 <= i < |Sysctls()| ensures SysctlIs(a, Sysctls()[i]) {
        assert SysctlIs(AfterSysctl(k, w).k, Sysctls()[i]);
      }
    }
  }

  lemma RoutesStageIff(k: State, w: World, p: Policy)
    requires OwnedRouting(k) && Sound(p) && DefaultNumbers(p) && AfterWg(k, w, p).ok && AfterRouting(k, w, p).ok
    ensures var a := AfterRouting(k, w, p).k;
            && OwnPart(a.rules) == [OWN_RULE] && BLACKHOLE in RoutesIn(a, 100)
            && a.sysctls == AfterSysctl(k, w).k.sysctls
            && (p.tunnelUp ==> RoutesReached(a, p)) && (RoutesReached(a, p) <==> RoutesRight(k, w, p))
  {
    StagesOwned(k, w, p);
    RoutingStageOwned(k, w, p);
    hide AfterSysctl, AfterNft, AfterWg, AfterClients, AfterRouting, OwnedRouting, Sound, DefaultNumbers, RouteSet, WantSet,
      OwnPart, TakenDown;
  }

  /** Convergence: after any run of applies, any call of which may have failed, and of link events, one successful apply
      sets the sysctls, the owned rule and the terminal route, and reaches routes, marks and forwarding of its policy
      exactly under the stated conditions on the history, the faults and the policy. */
  lemma Convergence(k: State, h: seq<Policy>, es: seq<Event>, w: World, p: Policy)
    requires Owned(k, h) && forall i :: 0 <= i < |es| ==> Allowed(es[i])
    requires DefaultNumbers(p) && ApplyPolicy(RunEvents(k, es), w, p).stage == Done
    ensures var last, g, a := RunEvents(k, es), RunHistory(k, h, es), ApplyPolicy(RunEvents(k, es), w, p).k;
            && Settled(a) && Owned(a, Longer(g, w.fails(NftList), p))
            && (RoutesReached(a, p) <==> RoutesRight(last, w, p))
            && (MarksReached(a, p) <==> MarksRight(g, w.fails(NftList), p))
            && (ForwardReached(a, p) <==> ForwardRight(g, w.fails(NftList), p))
  {
    RunKeepsOwned(k, h, es);
    hide Owned, ApplyPolicy, Settled, RoutesReached, MarksReached, ForwardReached, RoutesRight, MarksRight, ForwardRight;
    ApplyReaches(RunEvents(k, es), RunHistory(k, h, es), w, p);
  }
}
