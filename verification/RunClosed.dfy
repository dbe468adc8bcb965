/** When the gate opens. An apply flushes the owned table before it fills it again, and takes the owned rule away before
  it adds it again; if it fails in between, marked packets that were dropped or tunnelled can reach the main table.
  Exactly which applies do that, and that every run without one stays closed. */
module RunClosed {
  import opened Policy
  import opened NftPile
  import opened NftSoundness
  import opened Routing
  import opened RuleListing
  import opened Kernel
  import opened Reconcile
  import opened Runs
  import opened RunTheorems
  import opened RunSafety
  import opened RunProgress

  // ----- the conditions

  /** The rule cannot be shown, is deleted, and cannot be added again. */
  ghost predicate LosesRule(f: Faults) {
    f(RuleShow(100)) && !f(RuleDel(100)) && f(RuleAdd(100))
  }

  /** The rule step succeeds where the rule was there. */
  ghost predicate KeepsRule(f: Faults) {
    !f(RuleShow(100)) || (!f(RuleDel(100)) && !f(RuleAdd(100)))
  }

  /** The routes are not shown as those wanted, and are flushed. */
  ghost predicate Flushes(routes: set<Route>, f: Faults, iface: string, up: bool) {
    (f(RouteShow(100)) || routes != WantSet(iface, up)) && !f(RouteFlush(100))
  }

  ghost predicate DeviceFails(f: Faults, links: set<string>, iface: string) {
    f(RouteReplace(100, 10)) || iface !in links
  }

  /** Some route cannot be added, so that the blackhole, which comes last, is not. */
  ghost predicate AddFails(f: Faults, links: set<string>, iface: string, up: bool) {
    (up && DeviceFails(f, links, iface)) || f(RouteReplace(100, 100))
  }

  /** The first route cannot be added, so that the table stays empty. */
  ghost predicate FirstFails(f: Faults, links: set<string>, iface: string, up: bool) {
    if up then DeviceFails(f, links, iface) else f(RouteReplace(100, 100))
  }

  /** The apply gets as far as rules and routes. */
  ghost predicate ReachesRouting(k: State, w: World, p: Policy) {
    Sound(p) && AfterSysctl(k, w).ok && AfterNft(k, w, p).ok && AfterWg(k, w, p).ok && AfterClients(k, w, p).ok
  }

  /** The routes of the owned table that are left when it does. */
  ghost function LeftRoutes(k: State, p: Policy): set<Route> {
    set r | r in RoutesIn(k, 100) && !TakenDown(p, r)
  }

  /** The apply loses the owned rule, or flushes the owned table and does not get to the blackhole. */
  ghost predicate Opens(k: State, w: World, p: Policy) {
    && ReachesRouting(k, w, p)
    && (|| LosesRule(w.fails)
        || (&& KeepsRule(w.fails) && Flushes(LeftRoutes(k, p), w.fails, IfaceOf(p), p.tunnelUp)
            && AddFails(w.fails, LinksAfter(k, p), IfaceOf(p), p.tunnelUp)))
  }

  /** The apply loses the owned rule, or flushes the owned table and adds nothing to it. */
  ghost predicate FallsThrough(k: State, w: World, p: Policy) {
    && ReachesRouting(k, w, p)
    && (|| LosesRule(w.fails)
        || (&& KeepsRule(w.fails) && Flushes(LeftRoutes(k, p), w.fails, IfaceOf(p), p.tunnelUp)
            && FirstFails(w.fails, LinksAfter(k, p), IfaceOf(p), p.tunnelUp)))
  }

  // ----- the routing stage

  lemma RuleStepIff(k: State, f: Faults)
    requires OwnedRules(k.rules) && OwnPart(k.rules) == [OWN_RULE]
    ensures var o := RuleSteps(k, f, [OWN_RULE_SPEC]);
            && o.k == k.(rules := o.k.rules) && (o.ok <==> KeepsRule(f))
            && OwnPart(o.k.rules) == if LosesRule(f) then [] else [OWN_RULE]
  {
    OwnedShownIff(k.rules);
    NothingShown(OWN_RULE_SPEC);
    var deleted := RuleDeleted(k, f, 100);
    RemovedParts(k.rules);
    InsertedParts(deleted.rules);
    InOwnPart(deleted.rules, OWN_RULE);
    InOwnPart(k.rules, OWN_RULE);
    RuleStepsOne(k, f);
    hide RuleShown, RulesText, Lookalike, RemoveFirst, InsertRule, OwnPart, ForeignPart;
  }

  /** Adding the wanted routes to an empty table. */
  lemma FillIff(k: State, f: Faults, iface: string, up: bool)
    requires RoutesIn(k, 100) == []
    ensures var a := RouteAdds(k, f, RoutesForTunnel(100, iface, up)).0;
            && (BLACKHOLE in RoutesIn(a, 100) <==> !AddFails(f, k.links, iface, up))
            && (RoutesIn(a, 100) == [] <==> FirstFails(f, k.links, iface, up))
  {
    var want, dev := RoutesForTunnel(100, iface, up), Route(Dev(iface), 10);
    assert RouteOf(want[|want| - 1]) == BLACKHOLE;
    assert SetRoute([], dev) == [dev] && SetRoute([], BLACKHOLE) == [BLACKHOLE];
    InSetRoute([dev], BLACKHOLE, BLACKHOLE);
    if up {
      assert RouteOf(want[0]) == dev && want == [want[0]] + [want[1]] && [want[1]] == [want[1]] + [];
      RouteAddsFirst(k, f, want[0], [want[1]]);
      RouteAddsFirst(RouteReplaced(k, f, 100, dev).0, f, want[1], []);
    } else {
      assert want == [want[0]] + [];
      RouteAddsFirst(k, f, want[0], []);
    }
    hide SetRoute, RouteAdds;
  }

  /** Adding the wanted routes to a table that has the blackhole. */
  lemma RefillKeeps(k: State, f: Faults, iface: string, up: bool)
    requires BLACKHOLE in RoutesIn(k, 100)
    ensures BLACKHOLE in RoutesIn(RouteAdds(k, f, RoutesForTunnel(100, iface, up)).0, 100)
  {
    var want, dev := RoutesForTunnel(100, iface, up), Route(Dev(iface), 10);
    assert RouteOf(want[|want| - 1]) == BLACKHOLE;
    InSetRoute(RoutesIn(k, 100), dev, BLACKHOLE);
    InSetRoute(RoutesIn(k, 100), BLACKHOLE, BLACKHOLE);
    if up {
      assert RouteOf(want[0]) == dev && want == [want[0]] + [want[1]] && [want[1]] == [want[1]] + [];
      var next := RouteReplaced(k, f, 100, dev).0;
      InSetRoute(RoutesIn(next, 100), BLACKHOLE, BLACKHOLE);
      RouteAddsFirst(k, f, want[0], [want[1]]);
      RouteAddsFirst(next, f, want[1], []);
    } else {
      assert want == [want[0]] + [];
      RouteAddsFirst(k, f, want[0], []);
    }
    hide SetRoute, RouteAdds;
  }

  lemma TableStepIff(k: State, f: Faults, iface: string, up: bool)
    requires OwnedRoutes(k) && BLACKHOLE in RoutesIn(k, 100)
    ensures var o, flushes := TableStep(k, f, Group(100, RoutesForTunnel(100, iface, up))), Flushes(RouteSet(k), f, iface, up);
            && o.k == k.(routes := o.k.routes)
            && (BLACKHOLE in RoutesIn(o.k, 100) <==> !(flushes && AddFails(f, k.links, iface, up)))
            && (RoutesIn(o.k, 100) == [] <==> flushes && FirstFails(f, k.links, iface, up))
  {
    var want := RoutesForTunnel(100, iface, up);
    RoutesMatchIff(k, iface, up);
    NoRoutesShown(iface, up);
    var flushed := RoutesFlushed(k, f, 100);
    RouteAddsFrame(flushed, f, want);
    if f(RouteFlush(100)) {
      RefillKeeps(k, f, iface, up);
    } else {
      FillIff(flushed, f, iface, up);
    }
    hide TableRoutesMatchSpec, RoutesText, RouteAdds, RoutesForTunnel, RouteSet, WantSet, AddFails, FirstFails;
  }

  /** The routing stage from a closed gate. */
  lemma RoutingIff(k: State, f: Faults, iface: string, up: bool)
    requires OwnedRouting(k) && Terminal(k)
    ensures var o := RoutingSteps(k, f, [OWN_RULE_SPEC], RoutesForTunnel(100, iface, up));
            var flushes := KeepsRule(f) && Flushes(RouteSet(k), f, iface, up);
            && OwnPart(o.k.rules) == (if LosesRule(f) then [] else [OWN_RULE])
            && (BLACKHOLE in RoutesIn(o.k, 100) <==> !(flushes && AddFails(f, k.links, iface, up)))
            && (RoutesIn(o.k, 100) == [] <==> flushes && FirstFails(f, k.links, iface, up))
  {
    RuleStepIff(k, f);
    GroupsOfRoutes(iface, up);
    var a, g := RuleSteps(k, f, [OWN_RULE_SPEC]).k, Group(100, RoutesForTunnel(100, iface, up));
    hide RuleSteps, TableStep, RoutesForTunnel, GroupAll, OwnPart, OwnedRules, KeepsRule, LosesRule, Flushes, AddFails, FirstFails;
    OneTable(a, f, g);
    TableStepIff(a, f, iface, up);
  }

  // ----- one apply

  lemma BeforeRouting(k: State, w: World, p: Policy)
    requires ReachesRouting(k, w, p)
    ensures AfterClients(k, w, p).k.links == LinksAfter(k, p)
  {
    SysctlStageFrame(k, w);
    NftStageFrame(k, w, p);
    hide AfterSysctl, AfterNft, IfaceOf, ValidName, NftOf, RoutesForTunnel;
    assert AfterNft(k, w, p).k.links == k.links;
  }

  lemma EarlierStagesTerminal(k: State, w: World, p: Policy)
    requires OwnedRouting(k) && Terminal(k) && DefaultNumbers(p) && Sound(p)
    ensures Terminal(AfterSysctl(k, w).k) && Terminal(AfterNft(k, w, p).k) && Terminal(AfterWg(k, w, p).k)
    ensures Terminal(AfterClients(k, w, p).k)
  {
    SysctlStageFrame(k, w);
    StagesOwned(k, w, p);
    NftStageFrame(k, w, p);
    hide AfterSysctl, AfterNft, WgStep, OwnedRouting, OwnPart, Sound, DefaultNumbers, NftOf, RoutesForTunnel;
    var n, c := AfterNft(k, w, p).k, AfterWg(k, w, p).k;
    assert OnlyTaken(n, w, StateOf(p).wireGuard, 100, BLACKHOLE) by { WgRoute(n, w, StateOf(p).wireGuard, 100, BLACKHOLE); }
    assert OnlyTaken(c, w, StateOf(p).wireGuardClients, 100, BLACKHOLE) by {
      WgRoute(c, w, StateOf(p).wireGuardClients, 100, BLACKHOLE);
    }
  }

  /** The routing stage of an apply, as a condition on the state before the apply. */
  lemma RoutingStageIff(k: State, w: World, p: Policy)
    requires OwnedRouting(k) && Terminal(k) && DefaultNumbers(p) && ReachesRouting(k, w, p)
    ensures var a := AfterRouting(k, w, p).k;
            && OwnPart(a.rules) == (if LosesRule(w.fails) then [] else [OWN_RULE])
            && (Terminal(a) <==> !Opens(k, w, p))
            && (OwnPart(a.rules) == [] || RoutesIn(a, 100) == [] <==> FallsThrough(k, w, p))
  {
    BeforeRouting(k, w, p);
    StagesOwned(k, w, p);
    EarlierStagesTerminal(k, w, p);
    var b := AfterClients(k, w, p).k;
    assert RouteSet(b) == LeftRoutes(k, p);
    hide AfterSysctl, AfterNft, AfterWg, AfterClients, RoutingSteps, OwnedRouting, OwnPart, Sound, KeepsRule, LosesRule, Flushes,
      AddFails, FirstFails, RouteSet, LeftRoutes, LinksAfter, IfaceOf, RoutesForTunnel;
    RoutingIff(b, w.fails, IfaceOf(p), p.tunnelUp);
  }

  /** An apply ends closed exactly if it does not open, whatever calls fail. */
  lemma ClosedIff(k: State, w: World, p: Policy)
    requires OwnedRouting(k) && Terminal(k) && DefaultNumbers(p)
    ensures var a := ApplyPolicy(k, w, p).k;
            && (Terminal(a) <==> !Opens(k, w, p))
            && (OwnPart(a.rules) == [] || OwnPart(a.rules) == [OWN_RULE])
            && (OwnPart(a.rules) == [] || RoutesIn(a, 100) == [] <==> FallsThrough(k, w, p))
  {
    if Sound(p) {
      ApplyStages(k, w, p);
      EarlierStagesTerminal(k, w, p);
      hide ApplyPolicy, AfterSysctl, AfterNft, AfterWg, AfterClients, AfterRouting, OwnedRouting, OwnPart, Sound, KeepsRule,
        LosesRule, Flushes, AddFails, FirstFails, LeftRoutes, LinksAfter, IfaceOf, DefaultNumbers;
      if ReachesRouting(k, w, p) {
        RoutingStageIff(k, w, p);
      }
    } else {
      UncompiledApply(k, w, p);
    }
  }

  lemma {:induction false} LookupEmpty(k: State, rules: seq<FwRule>)
    requires OwnPart(rules) == [OWN_RULE] && NoForeignRule(rules, DEFAULT_MARK) && RoutesIn(k, 100) == []
    ensures LookupRules(k, rules, DEFAULT_MARK) == MainTable
    decreases |rules|
  {
    if rules[0].priority == DEFAULT_RULE_PRIORITY {
      assert OwnPart(rules)[0] == rules[0];
      forall r | r in rules[1..] ensures r.mark != DEFAULT_MARK {
        RulesAreParts(rules[1..], r);
      }
      LookupNone(k, rules[1..], DEFAULT_MARK);
    } else {
      assert rules[0] in ForeignPart(rules);
      LookupEmpty(k, rules[1..]);
    }
  }

  /** Marked packets reach the main table exactly if the owned rule is gone or the owned table is empty. */
  lemma MainIff(k: State)
    requires (OwnPart(k.rules) == [] || OwnPart(k.rules) == [OWN_RULE]) && NoForeignRule(k.rules, DEFAULT_MARK)
    ensures Resolve(k, DEFAULT_MARK) == MainTable <==> OwnPart(k.rules) == [] || RoutesIn(k, 100) == []
  {
    if OwnPart(k.rules) == [] {
      forall r | r in k.rules ensures r.mark != DEFAULT_MARK {
        RulesAreParts(k.rules, r);
      }
      LookupNone(k, k.rules, DEFAULT_MARK);
    } else if RoutesIn(k, 100) == [] {
      LookupEmpty(k, k.rules);
    } else {
      BestIff(RoutesIn(k, 100));
      LookupOwn(k, k.rules);
    }
  }

  /** From a closed gate an apply lets marked packets through to the main table exactly if it falls through. */
  lemma FallsThroughIff(k: State, w: World, p: Policy)
    requires OwnedRouting(k) && Terminal(k) && DefaultNumbers(p) && NoForeignRule(k.rules, DEFAULT_MARK)
    ensures Resolve(k, DEFAULT_MARK) != MainTable
    ensures Resolve(ApplyPolicy(k, w, p).k, DEFAULT_MARK) == MainTable <==> FallsThrough(k, w, p)
  {
    ClosedIff(k, w, p);
    ApplyRouting(k, w, p);
    hide ApplyPolicy, OwnPart, ForeignPart, FallsThrough, Opens, OwnedRouting, Resolve, RoutesIn, DefaultNumbers;
    MainIff(ApplyPolicy(k, w, p).k);
    MainIff(k);
    assert RoutesIn(k, 100) != [];
  }

  // ----- without faults

  /** The policy gets to the routing stage, wants the tunnel up, and its device is not there. */
  ghost predicate DeviceMissing(k: State, p: Policy) {
    && Sound(p) && Renderable(p) && (p.wireGuard.privateKey != "" ==> ValidName(IfaceOf(p)))
    && p.tunnelUp && IfaceOf(p) !in LinksAfter(k, p)
  }

  lemma MissingNotWanted(k: State, p: Policy)
    requires OwnedRoutes(k) && p.tunnelUp && IfaceOf(p) !in LinksAfter(k, p)
    ensures LeftRoutes(k, p) != WantSet(IfaceOf(p), p.tunnelUp)
  {
    var dev := Route(Dev(IfaceOf(p)), 10);
    assert dev in WantSet(IfaceOf(p), p.tunnelUp);
    assert dev in RoutesIn(k, 100) ==> OwnedRoute(dev, k.links);
  }

  /** No call has to fail: an apply without faults opens a closed gate exactly if it wants the tunnel up and the device is
      missing, and then marked packets reach the main table. */
  lemma ReapplyOpensIff(k: State, h: seq<Policy>, w: World, p: Policy)
    requires Owned(k, h) && Terminal(k) && DefaultNumbers(p) && NoFaults(w.fails)
    ensures Terminal(ApplyPolicy(k, w, p).k) <==> !DeviceMissing(k, p)
    ensures FallsThrough(k, w, p) <==> DeviceMissing(k, p)
  {
    ClosedIff(k, w, p);
    FaultlessConditions(k, w, p);
    hide ApplyPolicy, AfterSysctl, AfterNft, AfterWg, AfterClients, Sound, Renderable, ValidName, IfaceOf, LinksAfter, LeftRoutes,
      WantSet, Terminal, Tracks, OwnedRouting, NoFaults;
    if Sound(p) {
      NftStageSucceedsIff(k, h, w, p);
      LaterStagesSucceedIff(k, w, p);
    }
  }

  lemma FaultlessConditions(k: State, w: World, p: Policy)
    requires OwnedRouting(k) && NoFaults(w.fails)
    ensures !LosesRule(w.fails) && KeepsRule(w.fails)
    ensures AddFails(w.fails, LinksAfter(k, p), IfaceOf(p), p.tunnelUp) <==> p.tunnelUp && IfaceOf(p) !in LinksAfter(k, p)
    ensures FirstFails(w.fails, LinksAfter(k, p), IfaceOf(p), p.tunnelUp) <==> p.tunnelUp && IfaceOf(p) !in LinksAfter(k, p)
    ensures p.tunnelUp && IfaceOf(p) !in LinksAfter(k, p) ==> Flushes(LeftRoutes(k, p), w.fails, IfaceOf(p), p.tunnelUp)
  {
    if p.tunnelUp && IfaceOf(p) !in LinksAfter(k, p) {
      MissingNotWanted(k, p);
    }
    hide IfaceOf, LinksAfter, LeftRoutes, WantSet, OwnedRouting;
  }

  lemma LinksKeptUnmanaged(k: State, w: World, p: Policy)
    requires DefaultNumbers(p) && p.wireGuard.privateKey == ""
    requires InboundManaged(p) ==> IfaceOf(p) != DEFAULT_CLIENTS_IFACE
    ensures var lost := LinkLost(ApplyPolicy(k, w, p).k, IfaceOf(p)); IfaceOf(p) !in LinksAfter(lost, p)
  {
    hide ApplyPolicy;
  }

  /** After a successful apply with the tunnel up, the loss of its interface leaves the gate closed. */
  lemma ClosedAfterLoss(k: State, h: seq<Policy>, w: World, p: Policy)
    requires Owned(k, h) && DefaultNumbers(p) && NoForeignRule(k.rules, DEFAULT_MARK)
    requires ApplyPolicy(k, w, p).stage == Done && p.tunnelUp
    ensures var closed := LinkLost(ApplyPolicy(k, w, p).k, IfaceOf(p));
            && Owned(closed, Longer(h, w.fails(NftList), p)) && Terminal(closed)
            && NoForeignRule(closed.rules, DEFAULT_MARK) && Resolve(closed, DEFAULT_MARK) == Blackholed
    ensures Sound(p) && Renderable(p)
  {
    var a, g := ApplyPolicy(k, w, p).k, Longer(h, w.fails(NftList), p);
    ApplyReaches(k, h, w, p);
    ApplyEndsTerminal(k, w, p);
    hide ApplyPolicy, Resolve, Longer, Tracks, OwnedRouting, OwnPart, ForeignPart, RoutesReached, IfaceOf, Renderable, Sound,
      DefaultNumbers, MarksReached, ForwardReached, AllSet;
    StepKeepsOwned(a, g, Lost(IfaceOf(p)));
    LostFate(a, p);
    assert BLACKHOLE in RoutesIn(LinkLost(a, IfaceOf(p)), 100) by { LostRoute(a, IfaceOf(p), 100, BLACKHOLE); }
  }

  /** Reapplying opens a closed gate: after any successful apply with the tunnel up and its interface not managed, and the
      loss of that interface, marked packets are dropped; applying the same policy again, with no call failing, ends in an
      error and sends them to the main table. */
  lemma ReapplyOpens(k: State, h: seq<Policy>, w: World, again: World, p: Policy)
    requires Owned(k, h) && DefaultNumbers(p) && NoForeignRule(k.rules, DEFAULT_MARK)
    requires ApplyPolicy(k, w, p).stage == Done && NoFaults(again.fails)
    requires p.tunnelUp && p.wireGuard.privateKey == "" && (InboundManaged(p) ==> IfaceOf(p) != DEFAULT_CLIENTS_IFACE)
    ensures var closed := LinkLost(ApplyPolicy(k, w, p).k, IfaceOf(p));
            && Resolve(closed, DEFAULT_MARK) == Blackholed
            && ApplyPolicy(closed, again, p).stage != Done
            && Resolve(ApplyPolicy(closed, again, p).k, DEFAULT_MARK) == MainTable
  {
    var closed := LinkLost(ApplyPolicy(k, w, p).k, IfaceOf(p));
    ClosedAfterLoss(k, h, w, p);
    LinksKeptUnmanaged(k, w, p);
    hide *;
    assert DeviceMissing(closed, p) by { MissingHere(closed, p); }
    assert OwnedRouting(closed) by { OwnedHere(closed, Longer(h, w.fails(NftList), p)); }
    ReapplyOpensIff(closed, Longer(h, w.fails(NftList), p), again, p);
    FallsThroughIff(closed, again, p);
    if ApplyPolicy(closed, again, p).stage == Done {
      ApplyEndsTerminal(closed, again, p);
    }
  }

  lemma MissingHere(k: State, p: Policy)
    requires Sound(p) && Renderable(p) && p.wireGuard.privateKey == "" && p.tunnelUp && IfaceOf(p) !in LinksAfter(k, p)
    ensures DeviceMissing(k, p)
  {
  }

  lemma OwnedHere(k: State, h: seq<Policy>)
    requires Owned(k, h)
    ensures OwnedRouting(k)
  {
  }

  /** With the wanted routes in place the loss of the device leaves the blackhole alone. */
  lemma LostFate(a: State, p: Policy)
    requires RoutesReached(a, p) && Terminal(a) && NoForeignRule(a.rules, DEFAULT_MARK)
    ensures Resolve(LinkLost(a, IfaceOf(p)), DEFAULT_MARK) == Blackholed
  {
    var k := LinkLost(a, IfaceOf(p));
    hide IfaceOf;
    forall r ensures r in RoutesIn(k, 100) <==> r == BLACKHOLE {
      LostRoute(a, IfaceOf(p), 100, r);
      assert r in RouteSet(a) <==> r in RoutesIn(a, 100);
    }
    assert BLACKHOLE in RoutesIn(k, 100);
    BestIff(RoutesIn(k, 100));
    LookupOwn(k, k.rules);
  }

  const FRESH: State := State(map[], map[], [], map[], {"wg-exit"})
  const CALM: World := World(c => false, name => 0)
  const PLAIN: Policy := PolicyWith([], [])

  /** The same from a fresh host with nothing but the tunnel link, for a policy without prefixes. */
  lemma ReapplyExample()
    ensures ApplyPolicy(FRESH, CALM, PLAIN).stage == Done
    ensures var closed := LinkLost(ApplyPolicy(FRESH, CALM, PLAIN).k, "wg-exit");
            && Resolve(closed, DEFAULT_MARK) == Blackholed
            && Resolve(ApplyPolicy(closed, CALM, PLAIN).k, DEFAULT_MARK) == MainTable
  {
    FreshOwned();
    PlainApplicable();
    hide ApplyPolicy, Owned, Resolve, LinkLost, FRESH, PLAIN, Applicable, DefaultNumbers, NoForeignRule, IfaceOf, InboundManaged;
    ApplySucceedsIff(FRESH, [], CALM, PLAIN);
    ReapplyOpens(FRESH, [], CALM, CALM, PLAIN);
  }

  lemma FreshOwned()
    ensures Owned(FRESH, []) && NoForeignRule(FRESH.rules, DEFAULT_MARK)
  {
    assert ValidName("wg-exit");
    assert RoutesIn(FRESH, 100) == [];
    hide ValidName;
  }

  lemma PlainApplicable()
    ensures Applicable(FRESH, PLAIN) && DefaultNumbers(PLAIN) && IfaceOf(PLAIN) == "wg-exit"
    ensures PLAIN.tunnelUp && PLAIN.wireGuard.privateKey == "" && !InboundManaged(PLAIN)
  {
    MaskedSetEmpty();
  }

  // ----- runs

  /** No apply of the run opens the gate in the state it meets. */
  ghost predicate NeverOpens(k: State, es: seq<Event>)
    decreases |es|
  {
    es != [] ==> (es[0].Apply? ==> !Opens(k, es[0].w, es[0].p)) && NeverOpens(Step(k, es[0]), es[1..])
  }

  lemma StepClosedIff(k: State, e: Event)
    requires OwnedRouting(k) && Terminal(k) && Allowed(e)
    ensures Terminal(Step(k, e)) <==> (e.Apply? ==> !Opens(k, e.w, e.p))
    ensures OwnedRouting(Step(k, e)) && ForeignPart(Step(k, e).rules) == ForeignPart(k.rules)
  {
    match e {
      case Apply(p, w) =>
        hide ApplyPolicy, OwnedRouting, OwnPart, ForeignPart, Opens, DefaultNumbers;
        ClosedIff(k, w, p);
        ApplyRouting(k, w, p);
      case Lost(name) =>
        hide OwnPart, ForeignPart, OwnedRules;
        forall r ensures r in RoutesIn(LinkLost(k, name), 100) <==> r in RoutesIn(k, 100) && r.hop != Dev(name) {
          LostRoute(k, name, 100, r);
        }
        forall r | r in RoutesIn(LinkLost(k, name), 100) ensures OwnedRoute(r, k.links - {name}) {
          assert OwnedRoute(r, k.links);
        }
      case Back(name) =>
        hide OwnPart, ForeignPart, OwnedRules;
        forall r | r in RoutesIn(k, 100) ensures OwnedRoute(r, k.links + {name}) {
          assert OwnedRoute(r, k.links);
        }
    }
  }

  lemma RunFirst(k: State, es: seq<Event>, i: nat)
    requires 0 < i <= |es|
    ensures RunEvents(k, es[..i]) == RunEvents(Step(k, es[0]), es[1..][..i - 1])
  {
    assert es[..i][1..] == es[1..][..i - 1];
    hide Step;
  }

  /** A run from a closed gate is closed after every event exactly if no apply of it opens. */
  lemma {:induction false} ClosedRunIff(k: State, es: seq<Event>)
    requires OwnedRouting(k) && Terminal(k) && forall i :: 0 <= i < |es| ==> Allowed(es[i])
    ensures NeverOpens(k, es) <==> forall i :: 0 <= i <= |es| ==> Terminal(RunEvents(k, es[..i]))
    ensures NeverOpens(k, es) ==> ForeignPart(RunEvents(k, es).rules) == ForeignPart(k.rules)
    decreases |es|
  {
    hide Step, OwnedRouting, Terminal, Opens, Allowed, ForeignPart;
    assert RunEvents(k, es[..0]) == k;
    if es != [] {
      var next, rest := Step(k, es[0]), es[1..];
      assert Allowed(es[0]) && forall i :: 0 <= i < |rest| ==> Allowed(rest[i]);
      StepClosedIff(k, es[0]);
      forall i: nat | 0 < i <= |es| ensures RunEvents(k, es[..i]) == RunEvents(next, rest[..i - 1]) {
        RunFirst(k, es, i);
      }
      assert rest[..0] == [] && RunEvents(next, rest[..0]) == next;
      if Terminal(next) {
        ClosedRunIff(next, rest);
        if NeverOpens(k, es) {
          forall i: nat | i <= |es| ensures Terminal(RunEvents(k, es[..i])) {
            assert i > 0 ==> Terminal(RunEvents(next, rest[..i - 1]));
          }
        }
        if forall i :: 0 <= i <= |es| ==> Terminal(RunEvents(k, es[..i])) {
          forall i: nat | i <= |rest| ensures Terminal(RunEvents(next, rest[..i])) {
            assert Terminal(RunEvents(k, es[..i + 1]));
          }
        }
      } else {
        assert !Terminal(RunEvents(k, es[..1]));
      }
    }
  }

  /** Closed over runs: after a successful apply, through every further run of applies, whichever calls of theirs fail, and
      of link events, in which no apply opens the gate, a marked packet is dropped or leaves by a device route of the
      owned table. */
  lemma ClosedOverRuns(k: State, w: World, p: Policy, es: seq<Event>)
    requires OwnedRouting(k) && NoForeignRule(k.rules, DEFAULT_MARK)
    requires DefaultNumbers(p) && ApplyPolicy(k, w, p).stage == Done
    requires (forall i :: 0 <= i < |es| ==> Allowed(es[i])) && NeverOpens(ApplyPolicy(k, w, p).k, es)
    ensures var after := RunEvents(ApplyPolicy(k, w, p).k, es);
            || Resolve(after, DEFAULT_MARK) == Blackholed
            || exists r :: r in RoutesIn(after, 100) && r.hop.Dev? && Resolve(after, DEFAULT_MARK) == ToDevice(r.hop.name)
  {
    var a := ApplyPolicy(k, w, p).k;
    ApplyEndsTerminal(k, w, p);
    ApplyRouting(k, w, p);
    hide ApplyPolicy, Resolve, OwnPart, ForeignPart, OwnedRouting, RoutesIn, RunEvents, NeverOpens, Allowed, Terminal;
    ClosedRunResolves(a, es);
  }

  lemma ClosedRunResolves(k: State, es: seq<Event>)
    requires OwnedRouting(k) && Terminal(k) && NoForeignRule(k.rules, DEFAULT_MARK)
    requires (forall i :: 0 <= i < |es| ==> Allowed(es[i])) && NeverOpens(k, es)
    ensures var after := RunEvents(k, es);
            || Resolve(after, DEFAULT_MARK) == Blackholed
            || exists r :: r in RoutesIn(after, 100) && r.hop.Dev? && Resolve(after, DEFAULT_MARK) == ToDevice(r.hop.name)
  {
    ClosedRunIff(k, es);
    assert es[..|es|] == es;
    hide Resolve, OwnPart, ForeignPart, OwnedRouting, RoutesIn, Terminal, Allowed, NeverOpens;
    TerminalResolves(RunEvents(k, es));
  }
}
