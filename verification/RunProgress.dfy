/** When an apply succeeds, what a second one changes, and two failures of the promise to recover: the exact conditions,
  and concrete states in which they do not hold. */
module RunProgress {
  import opened Wrappers
  import opened Policy
  import opened NftKernel
  import opened NftPile
  import opened NftDecision
  import opened NftSoundness
  import opened Routing
  import opened RuleListing
  import opened Kernel
  import opened Reconcile
  import opened Runs
  import opened RunTheorems

  ghost predicate NoFaults(f: Faults) {
    forall c :: !f(c)
  }

  lemma {:induction false} SysctlSucceeds(k: State, f: Faults, specs: seq<SysctlSpec>)
    requires forall key :: !f(EchoSysctl(key))
    ensures SysctlSteps(k, f, specs).ok
    decreases |specs|
  {
    if specs != [] {
      SysctlSucceeds(SysctlStep(k, f, specs[0]).k, f, specs[1..]);
    }
  }

  lemma NftSucceedsIff(k: State, h: seq<Policy>, f: Faults, p: Policy)
    requires NoFaults(f) && Sound(p) && Tracks(k, h)
    ensures NftStep(k, f, NftOf(p)).ok <==> Renderable(p)
  {
    NftStepCases(k, h, f, p);
    RenderedIff(p);
    hide NftStep, NftOf, Recognised, Pile, PileTable, Renderable, Built, Sound;
    if Recognised(h, p) {
      RecognisedRenderable(h, p);
    }
  }

  lemma RouteAddsSucceedIff(k: State, f: Faults, iface: string, up: bool)
    requires NoFaults(f)
    ensures RouteAdds(k, f, RoutesForTunnel(100, iface, up)).1 <==> (up ==> iface in k.links)
  {
    var want := RoutesForTunnel(100, iface, up);
    assert RouteOf(want[|want| - 1]) == BLACKHOLE;
    if up {
      assert RouteOf(want[0]) == Route(Dev(iface), 10);
      assert want == [want[0]] + [want[1]] && [want[1]] == [want[1]] + [];
      RouteAddsFirst(k, f, want[0], [want[1]]);
      RouteAddsFirst(RouteReplaced(k, f, 100, RouteOf(want[0])).0, f, want[1], []);
    } else {
      assert want == [want[0]] + [];
      RouteAddsFirst(k, f, want[0], []);
    }
  }

  lemma TableSucceedsIff(k: State, f: Faults, iface: string, up: bool)
    requires NoFaults(f) && OwnedRoutes(k)
    ensures TableStep(k, f, Group(100, RoutesForTunnel(100, iface, up))).ok <==> (up ==> iface in k.links)
  {
    RoutesMatchIff(k, iface, up);
    RouteAddsSucceedIff(RoutesFlushed(k, f, 100), f, iface, up);
    hide TableRoutesMatchSpec, RoutesText, RouteAdds, RoutesForTunnel;
    if up && RouteSet(k) == WantSet(iface, up) {
      assert Route(Dev(iface), 10) in RouteSet(k);
      assert OwnedRoute(Route(Dev(iface), 10), k.links);
    }
  }

  lemma RoutingSucceedsIff(k: State, f: Faults, iface: string, up: bool)
    requires NoFaults(f) && OwnedRouting(k)
    ensures RoutingSteps(k, f, [OWN_RULE_SPEC], RoutesForTunnel(100, iface, up)).ok <==> (up ==> iface in k.links)
  {
    RuleStepOwned(k, f);
    hide RuleSteps, TableStep, RoutesForTunnel, GroupAll, OwnedRules, OwnPart, ForeignPart;
    var a := RuleSteps(k, f, [OWN_RULE_SPEC]);
    GroupsOfRoutes(iface, up);
    var g := Group(100, RoutesForTunnel(100, iface, up));
    TableSucceedsIff(a.k, f, iface, up);
    OneTable(a.k, f, g);
  }

  /** The links after both WireGuard stages of an apply without faults. */
  ghost function LinksAfter(k: State, p: Policy): set<string> {
    var links := if p.wireGuard.privateKey == "" then k.links
                 else if p.tunnelUp then k.links + {IfaceOf(p)} else k.links - {IfaceOf(p)};
    if InboundManaged(p) then links + {DEFAULT_CLIENTS_IFACE} else links
  }

  lemma WgStagesSucceedIff(k: State, w: World, p: Policy)
    requires NoFaults(w.fails)
    ensures var c := WgStep(k, w, StateOf(p).wireGuard);
            var d := WgStep(c.k, w, StateOf(p).wireGuardClients);
            && (c.ok <==> (p.wireGuard.privateKey != "" ==> ValidName(IfaceOf(p))))
            && d.ok && (c.ok ==> d.k.links == LinksAfter(k, p))
  {
    ClientsNameValid();
  }

  /** What an apply needs besides calls that do not fail: a policy that compiles to IPv4 rules, an interface name
      that a managed link can have, and with the tunnel up its device. */
  ghost predicate Applicable(k: State, p: Policy) {
    && Sound(p) && Renderable(p)
    && (p.wireGuard.privateKey != "" ==> ValidName(IfaceOf(p)))
    && (p.tunnelUp ==> IfaceOf(p) in LinksAfter(k, p))
  }

  lemma ClientsNameValid()
    ensures ValidName(DEFAULT_CLIENTS_IFACE)
  {
  }

  lemma NftStageSucceedsIff(k: State, h: seq<Policy>, w: World, p: Policy)
    requires Tracks(k, h) && NoFaults(w.fails) && Sound(p)
    ensures AfterSysctl(k, w).ok && (AfterNft(k, w, p).ok <==> Renderable(p))
  {
    SysctlSucceeds(k, w.fails, Sysctls());
    SysctlStageFrame(k, w);
    hide NftStep, SysctlSteps, Sysctls, NftOf, Renderable, Sound, Built, PileTable, NoFaults;
    NftSucceedsIff(AfterSysctl(k, w).k, h, w.fails, p);
  }

  lemma LaterStagesSucceedIff(k: State, w: World, p: Policy)
    requires OwnedRouting(k) && DefaultNumbers(p) && NoFaults(w.fails) && Sound(p)
    ensures AfterWg(k, w, p).ok <==> (p.wireGuard.privateKey != "" ==> ValidName(IfaceOf(p)))
    ensures AfterClients(k, w, p).ok
    ensures AfterWg(k, w, p).ok ==> (AfterRouting(k, w, p).ok <==> (p.tunnelUp ==> IfaceOf(p) in LinksAfter(k, p)))
  {
    StagesOwned(k, w, p);
    SysctlStageFrame(k, w);
    NftStageFrame(k, w, p);
    WgStagesSucceedIff(AfterNft(k, w, p).k, w, p);
    hide AfterSysctl, AfterNft, RoutingSteps, WgStep, NftOf, RoutesForTunnel, OwnedRouting, Sound, StateOf, ValidName,
      IfaceOf, NoFaults;
    RoutingSucceedsIff(AfterClients(k, w, p).k, w.fails, IfaceOf(p), p.tunnelUp);
    assert AfterNft(k, w, p).k.links == k.links;
  }

  /** Without faults an apply from an owned state succeeds exactly if the policy is applicable. */
  lemma ApplySucceedsIff(k: State, h: seq<Policy>, w: World, p: Policy)
    requires Owned(k, h) && DefaultNumbers(p) && NoFaults(w.fails)
    ensures ApplyPolicy(k, w, p).stage == Done <==> Applicable(k, p)
  {
    hide ApplyPolicy, AfterSysctl, AfterNft, AfterWg, AfterClients, AfterRouting, Tracks, OwnedRouting, Renderable, Sound,
      LinksAfter, DefaultNumbers, ValidName, IfaceOf, NoFaults;
    if Sound(p) {
      ApplyStages(k, w, p);
      NftStageSucceedsIff(k, h, w, p);
      LaterStagesSucceedIff(k, w, p);
    } else {
      UncompiledApply(k, w, p);
    }
  }

  /** The kernel is in every respect as the policy wants it. */
  ghost predicate Reached(k: State, p: Policy) {
    Settled(k) && RoutesReached(k, p) && MarksReached(k, p) && ForwardReached(k, p)
  }

  /** Recovery: after any run, however its applies ended, an apply whose calls do not fail succeeds exactly if the
      policy is applicable, and then reaches it exactly unless it keeps a table that it wrongly recognises. */
  lemma Recovery(k: State, h: seq<Policy>, es: seq<Event>, w: World, p: Policy)
    requires Owned(k, h) && forall i :: 0 <= i < |es| ==> Allowed(es[i])
    requires DefaultNumbers(p) && NoFaults(w.fails)
    ensures var last, g := RunEvents(k, es), RunHistory(k, h, es);
            && (ApplyPolicy(last, w, p).stage == Done <==> Applicable(last, p))
            && (Applicable(last, p) ==>
                  (Reached(ApplyPolicy(last, w, p).k, p)
                   <==> (g != [] && Recognised(g, p) ==> KeptRight(g, p) && (AnyInbound(g) ==> InboundManaged(p)))))
  {
    RunKeepsOwned(k, h, es);
    var last, g := RunEvents(k, es), RunHistory(k, h, es);
    ApplySucceedsIff(last, g, w, p);
    hide Owned, ApplyPolicy, Applicable, DefaultNumbers, RunEvents, RunHistory, Settled, RoutesReached, MarksReached,
      ForwardReached, KeptRight, AnyInbound, Recognised;
    if Applicable(last, p) {
      ApplyReaches(last, g, w, p);
    }
  }

  // ----- a second apply

  lemma SecondNft(k: State, h: seq<Policy>, f: Faults, p: Policy)
    requires Tracks(k, h) && h != [] && Sound(p) && Renderable(p) && NoFaults(f)
    ensures var o := NftStep(k, f, NftOf(p)); o.ok && o.changes == if Recognised(h, p) then 0 else 1
  {
    NftStepCases(k, h, f, p);
    RenderedIff(p);
    hide NftStep, NftOf, Recognised, Pile, PileTable, Renderable, Built, Sound;
  }

  /** What the routing stage counts without faults, once the owned rule is there. */
  lemma SecondRouting(k: State, f: Faults, iface: string, up: bool)
    requires OwnedRouting(k) && OwnPart(k.rules) == [OWN_RULE] && NoFaults(f) && (up ==> iface in k.links)
    ensures var o := RoutingSteps(k, f, [OWN_RULE_SPEC], RoutesForTunnel(100, iface, up));
            o.ok && o.changes == if RouteSet(k) == WantSet(iface, up) then 0 else 1
  {
    RoutingSucceedsIff(k, f, iface, up);
    RuleStepOwned(k, f);
    var want := RoutesForTunnel(100, iface, up);
    RoutesMatchIff(k, iface, up);
    GroupsOfRoutes(iface, up);
    hide RuleSteps, RoutesForTunnel, GroupAll, OwnPart, ForeignPart, TableRoutesMatchSpec, RouteAdds, RoutesText, RouteSet,
      WantSet;
    OneTable(k, f, Group(100, want));
  }

  /** A second apply without faults succeeds; it counts one change if the table is not recognised, one if the routes are
      not those wanted, and what WireGuard reports. */
  lemma SecondApply(k: State, h: seq<Policy>, w: World, p: Policy)
    requires Owned(k, h) && h != [] && Settled(k) && (p.tunnelUp ==> RoutesReached(k, p))
    requires Sound(p) && Renderable(p) && DefaultNumbers(p) && NoFaults(w.fails)
    requires p.wireGuard.privateKey != "" ==> ValidName(IfaceOf(p))
    ensures var a := ApplyPolicy(k, w, p);
            && a.stage == Done
            && a.changes == (if Recognised(h, p) then 0 else 1)
                            + (if RoutesReached(AfterClients(k, w, p).k, p) then 0 else 1)
                            + AfterWg(k, w, p).changes + AfterClients(k, w, p).changes
  {
    ApplyStages(k, w, p);
    StagesOwned(k, w, p);
    SysctlsOnIff(k);
    SysctlNoChange(k, w.fails, Sysctls());
    assert AfterSysctl(k, w) == Outcome(k, 0, true);
    WgStagesSucceedIff(AfterNft(k, w, p).k, w, p);
    NftStageFrame(k, w, p);
    SecondLink(k, p);
    hide AfterSysctl, NftStep, SysctlSteps, RoutingSteps, WgStep, ApplyPolicy, Sysctls, OwnedRouting, Tracks, NftOf, OwnPart,
      RoutesIn, RouteSet, WantSet, Recognised, Renderable, Sound, NoFaults, AllSet;
    SecondNft(k, h, w.fails, p);
    SecondRouting(AfterClients(k, w, p).k, w.fails, IfaceOf(p), p.tunnelUp);
  }

  /** With the tunnel up its device is there before and after the WireGuard stages. */
  lemma SecondLink(k: State, p: Policy)
    requires OwnedRoutes(k) && (p.tunnelUp ==> RoutesReached(k, p))
    ensures p.tunnelUp ==> IfaceOf(p) in LinksAfter(k, p)
  {
    if p.tunnelUp {
      assert Route(Dev(IfaceOf(p)), 10) in RouteSet(k);
      assert OwnedRoute(Route(Dev(IfaceOf(p)), 10), k.links);
    }
  }

  lemma UnmanagedStages(k: State, w: World, p: Policy)
    requires p.wireGuard.privateKey == "" && !InboundManaged(p)
    ensures AfterWg(k, w, p).changes == 0 && AfterClients(k, w, p).changes == 0
    ensures AfterClients(k, w, p).k == AfterNft(k, w, p).k
  {
    hide AfterNft;
  }

  /** An apply that could list the table leaves one that the next apply recognises exactly if the policy lists as
      written. */
  lemma SightedIff(h: seq<Policy>, p: Policy)
    requires Sound(p) && Renderable(p)
    ensures Recognised(Longer(h, false, p), p) <==> Listable(p.directPrefixes) && Listable(p.lans)
  {
    RenderedIff(p);
    SelfMatchIff(p);
    MatchIff([p], p);
    hide PileTable, RenderedTable, Pile, NonHosts, AllDirect, AllLans, HomeLans, AnyInbound, MarkOf;
  }

  /** Idempotence: with WireGuard unmanaged, applying twice makes no change the second time exactly if the first apply
      left the wanted routes, and the direct prefixes and LANs are masked and none is a single address; or, when the first
      apply could not list the table, if the longer history is recognised. */
  lemma IdempotentIff(k: State, h: seq<Policy>, w: World, w2: World, p: Policy)
    requires Owned(k, h) && DefaultNumbers(p) && ApplyPolicy(k, w, p).stage == Done
    requires p.wireGuard.privateKey == "" && !InboundManaged(p) && NoFaults(w2.fails)
    ensures var second := ApplyPolicy(ApplyPolicy(k, w, p).k, w2, p);
            && second.stage == Done
            && (second.changes == 0
                <==> && RoutesRight(k, w, p)
                     && if h != [] && w.fails(NftList) then Recognised(h + [p], p)
                        else Listable(p.directPrefixes) && Listable(p.lans))
  {
    var a, g := ApplyPolicy(k, w, p).k, Longer(h, w.fails(NftList), p);
    ApplyReaches(k, h, w, p);
    UnmanagedStages(a, w2, p);
    LongerSome(h, w.fails(NftList), p);
    NftRoutes(a, w2, p);
    hide ApplyPolicy, AfterNft, Owned, Settled, Sound, Renderable, DefaultNumbers, Recognised, Listable, RoutesRight,
      MarksReached, ForwardReached, MarksRight, ForwardRight, NoFaults, IfaceOf, ValidName;
    SecondApply(a, g, w2, p);
    SightedIff(h, p);
    SightlessIs(h, w.fails(NftList), p);
  }

  lemma SightlessIs(h: seq<Policy>, blind: bool, p: Policy)
    ensures h != [] && blind ==> Longer(h, blind, p) == h + [p]
    ensures h == [] ==> Longer(h, blind, p) == Longer(h, false, p)
  {
  }

  lemma NftRoutes(k: State, w: World, p: Policy)
    ensures RoutesReached(AfterNft(k, w, p).k, p) <==> RoutesReached(k, p)
  {
    SysctlStageFrame(k, w);
    NftStageFrame(k, w, p);
    hide AfterSysctl, AfterNft, IfaceOf;
    assert RoutesIn(AfterNft(k, w, p).k, 100) == RoutesIn(k, 100);
  }

  // ----- where recovery fails

  const LIST_FAILS: Faults := c => c == NftList
  const FLUSH_FAILS: Faults := c => c == RouteFlush(100)
  const NONE_FAILS: Faults := c => false

  /** Applies of one policy that can list the table, whatever else fails in them, and link events. */
  ghost predicate Repeats(p: Policy, es: seq<Event>) {
    forall i :: 0 <= i < |es| ==> (es[i].Apply? ==> es[i].p == p && !es[i].w.fails(NftList)) && (es[i].Back? ==> ValidName(es[i].name))
  }

  /** The nft stage of every apply of the policy that can list the table reports success and no change. */
  ghost predicate TakenForRight(k: State, p: Policy) {
    forall w: World :: !w.fails(NftList) ==> AfterNft(k, w, p).ok && AfterNft(k, w, p).changes == 0
  }

  lemma {:induction false} RepeatsKeep(k: State, h: seq<Policy>, p: Policy, es: seq<Event>)
    requires Owned(k, h) && Recognised(h, p) && Sound(p) && DefaultNumbers(p) && Repeats(p, es)
    ensures RunHistory(k, h, es) == h && Owned(RunEvents(k, es), h)
    decreases |es|
  {
    hide Step, Owned, Recognised, Sound, DefaultNumbers;
    if es != [] {
      StepKeepsOwned(k, h, es[0]) by { assert Allowed(es[0]); }
      NextIsSame(k, h, p, es[0]);
      assert forall i :: 0 <= i < |es[1..]| ==> es[1..][i] == es[i + 1];
      RepeatsKeep(Step(k, es[0]), h, p, es[1..]);
    }
  }

  lemma NextIsSame(k: State, h: seq<Policy>, p: Policy, e: Event)
    requires Recognised(h, p) && (e.Apply? ==> e.p == p && !e.w.fails(NftList))
    ensures NextHistory(k, h, e) == h
  {
    hide AfterSysctl, AfterNft, Sound;
    assert h != [];
  }

  lemma StageTaken(k: State, h: seq<Policy>, w: World, p: Policy)
    requires Tracks(k, h) && Recognised(h, p) && Sound(p) && !w.fails(NftList)
    ensures AfterNft(k, w, p).ok && AfterNft(k, w, p).changes == 0
  {
    SysctlStageFrame(k, w);
    assert h != [];
    hide AfterSysctl, NftStep, NftOf, Built, PileTable, Recognised, Sound;
    NftStepCases(AfterSysctl(k, w).k, h, w.fails, p);
  }

  /** A history that is recognised stays for good: through every run of applies of its policy that can list the table, and
      of link events, marks and forwarding are right exactly under the conditions of a kept table, and the nft stage of
      every further apply takes the table for right. */
  lemma KeptForGood(k: State, h: seq<Policy>, p: Policy, es: seq<Event>)
    requires Owned(k, h) && Recognised(h, p) && Sound(p) && DefaultNumbers(p) && Repeats(p, es)
    ensures var a := RunEvents(k, es);
            && RunHistory(k, h, es) == h && TakenForRight(a, p)
            && (MarksReached(a, p) <==> KeptRight(h, p))
            && (ForwardReached(a, p) <==> (AnyInbound(h) ==> InboundManaged(p)))
  {
    RepeatsKeep(k, h, p, es);
    var a := RunEvents(k, es);
    assert h != [];
    hide RunEvents, RunHistory, Repeats, Recognised, Sound, DefaultNumbers, KeptRight, AnyInbound, OwnedRouting, AfterNft, PileTable;
    forall w: World | !w.fails(NftList) ensures AfterNft(a, w, p).ok && AfterNft(a, w, p).changes == 0 {
      StageTaken(a, h, w, p);
    }
    TracksPile(a, h);
    TableRightIff(h, false, p);
  }

  /** One failed listing sends a LAN to the tunnel for good: an apply of the wider policy in which nothing fails but the
      listing piles it on the narrow one, and after every run of further applies of it that can list the table, and of link
      events, the nft stage takes the table for right while the added LAN is marked where the policy's own table would leave
      it alone. */
  lemma StuckForGood(k: State, w: World, later: seq<Event>)
    requires Owned(k, [NARROW]) && w.fails == LIST_FAILS && Repeats(WIDE, later)
    ensures Renderable(WIDE)
    ensures var a := RunEvents(ApplyPolicy(k, w, WIDE).k, later);
            && TakenForRight(a, WIDE) && !MarksReached(a, WIDE) && OWNED in a.nft
            && RunHook(a.nft[OWNED], "prerouting", Packet(V4(AT_HOME), "", 0)) == Accept(1)
            && RunHook(RenderedTable(WIDE), "prerouting", Packet(V4(AT_HOME), "", 0)) == Accept(0)
  {
    StuckExample();
    ExamplePolicies();
    ExampleBuilt();
    StuckNext(k, w);
    hide *;
    var first := ApplyPolicy(k, w, WIDE).k;
    assert Owned(first, [NARROW, WIDE]) by {
      assert Allowed(Apply(WIDE, w)) by { WideAllowed(w); }
      StepKeepsOwned(k, [NARROW], Apply(WIDE, w));
      StepIsApply(k, w);
    }
    assert DefaultNumbers(WIDE) by { WideAllowed(w); }
    KeptForGood(first, [NARROW, WIDE], WIDE, later);
    RepeatsKeep(first, [NARROW, WIDE], WIDE, later);
    var a := RunEvents(first, later);
    OwnedPile(a, [NARROW, WIDE]);
    if MarksReached(a, WIDE) {
      SameThere(a, Packet(V4(AT_HOME), "", 0));
    }
  }

  lemma SameThere(k: State, pkt: Packet)
    requires MarksReached(k, WIDE)
    ensures RunHook(k.nft[OWNED], "prerouting", pkt) == RunHook(RenderedTable(WIDE), "prerouting", pkt)
  {
    hide RunHook, RenderedTable, WIDE, Renderable;
  }

  lemma OwnedPile(k: State, h: seq<Policy>)
    requires Owned(k, h) && h != []
    ensures Pile(h) && OWNED in k.nft && k.nft[OWNED] == PileTable(h)
  {
  }

  lemma StepIsApply(k: State, w: World)
    ensures Step(k, Apply(WIDE, w)) == ApplyPolicy(k, w, WIDE).k
  {
  }

  lemma WideAllowed(w: World)
    ensures DefaultNumbers(WIDE) && Allowed(Apply(WIDE, w))
  {
    ExampleBuilt();
    assert [NARROW, WIDE][1] == WIDE;
  }

  lemma SysctlStageSucceeds(k: State, h: seq<Policy>, w: World)
    requires Tracks(k, h) && forall key :: !w.fails(EchoSysctl(key))
    ensures AfterSysctl(k, w).ok && Tracks(AfterSysctl(k, w).k, h)
  {
    SysctlSucceeds(k, w.fails, Sysctls());
    SysctlStageFrame(k, w);
    hide SysctlSteps, Sysctls, Built, PileTable;
  }

  lemma BlindStage(k: State, h: seq<Policy>, w: World, p: Policy)
    requires Tracks(k, h) && h != [] && Sound(p) && Pile(h + [p]) && w.fails == LIST_FAILS
    ensures NextHistory(k, h, Apply(p, w)) == h + [p]
  {
    SysctlStageSucceeds(k, h, w);
    hide AfterSysctl, NftStep, NftOf, Recognised, Pile, PileTable, Sound, Built;
    NftStepCases(AfterSysctl(k, w).k, h, w.fails, p);
  }

  lemma StuckNext(k: State, w: World)
    requires Owned(k, [NARROW]) && w.fails == LIST_FAILS
    ensures NextHistory(k, [NARROW], Apply(WIDE, w)) == [NARROW, WIDE]
  {
    StuckExample();
    assert [NARROW] + [WIDE] == [NARROW, WIDE];
    hide NARROW, WIDE, NextHistory, Recognised, Pile, PileTable, RenderedTable, Renderable, Sound, Built, OwnedRouting, RunHook;
    BlindStage(k, [NARROW], w, WIDE);
  }

  lemma ExampleBuilt()
    ensures Built([NARROW, WIDE])
  {
    StuckExample();
    hide Pile;
  }

  /** Such a state is there after an apply of the narrow policy. */
  lemma StuckStart()
    ensures Pile([NARROW]) && Tracks(State(map[], map[OWNED := PileTable([NARROW])], [], map[], {}), [NARROW])
  {
    StuckExample();
    ExamplePolicies();
    RenderedIff(NARROW);
    ExampleBuilt();
    assert [NARROW][0] == [NARROW, WIDE][0];
    hide Pile, PileTable, NARROW, WIDE, Sound, DefaultNumbers, Renderable;
  }

  /** A flush that fails unnoticed leaves the tunnel route when the tunnel is wanted down: the step reports success and
      the best route of the owned table is still the device. */
  lemma StaleRoute(k: State, f: Faults, iface: string)
    requires OwnedRoutes(k) && RoutesIn(k, 100) == [Route(Dev(iface), 10), BLACKHOLE]
    requires f(RouteFlush(100)) && !f(RouteReplace(100, 100))
    ensures var o := TableStep(k, f, Group(100, RoutesForTunnel(100, iface, false)));
            o.ok && o.changes == 1 && Best(RoutesIn(o.k, 100)) == Some(Route(Dev(iface), 10))
  {
    var dev := Route(Dev(iface), 10);
    var want := RoutesForTunnel(100, iface, false);
    assert want == [want[0]] + [] && RouteOf(want[0]) == BLACKHOLE;
    assert dev in RouteSet(k) && dev !in WantSet(iface, false);
    RoutesMatchIff(k, iface, false);
    NoRoutesShown(iface, false);
    RouteAddsFirst(k, f, want[0], []);
    BlackholeAgain(dev);
    hide TableRoutesMatchSpec, RoutesText, RouteAdds, Best, SetRoute;
  }

  lemma BlackholeAgain(dev: Route)
    requires dev.metric == 10
    ensures SetRoute([dev, BLACKHOLE], BLACKHOLE) == [dev, BLACKHOLE] && Best([dev, BLACKHOLE]) == Some(dev)
  {
    var rs := [dev, BLACKHOLE];
    assert rs[1..] == [BLACKHOLE] && [BLACKHOLE][1..] == [];
    assert Without([BLACKHOLE], 100) == [] + Without([], 100) == [];
    assert Without(rs, 100) == [dev] + Without(rs[1..], 100) == [dev];
    assert Best([BLACKHOLE]) == Some(BLACKHOLE);
  }

  const TUNNEL_UP: State :=
    State(map[], map[], [], map[100 := [Route(Dev("wg-exit"), 10), BLACKHOLE]], {"wg-exit"})

  lemma StaleRouteExample()
    ensures var o := TableStep(TUNNEL_UP, FLUSH_FAILS, Group(100, RoutesForTunnel(100, "wg-exit", false)));
            o.ok && o.changes == 1 && Best(RoutesIn(o.k, 100)) == Some(Route(Dev("wg-exit"), 10))
  {
    TunnelUpOwned();
    hide TableStep, OwnedRoutes, RoutesForTunnel, Best;
    StaleRoute(TUNNEL_UP, FLUSH_FAILS, "wg-exit");
  }

  lemma TunnelUpOwned()
    ensures OwnedRoutes(TUNNEL_UP) && RoutesIn(TUNNEL_UP, 100) == [Route(Dev("wg-exit"), 10), BLACKHOLE]
  {
    assert ValidName("wg-exit");
    hide ValidName;
  }
}
