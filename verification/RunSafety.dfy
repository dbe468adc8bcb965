/** What a successful apply promises, after any run before it and through link events after it: marked packets stay off the
  main table, unmarked ones go where the history says, and clients stay out of its home networks. What every apply
  promises: it leaves alone what it does not own. Later applies can let marked packets through; RunClosed says which. */
module RunSafety {
  import opened Ipv4
  import opened Policy
  import opened NftKernel
  import opened NftPile
  import opened NftMeaning
  import opened NftLive
  import opened NftSoundness
  import opened Routing
  import opened RuleListing
  import opened Kernel
  import opened Reconcile
  import opened Runs
  import opened RunTheorems

  // ----- fail closed

  /** No foreign rule is for this mark. */
  ghost predicate NoForeignRule(rules: seq<FwRule>, mark: Mark) {
    forall r :: r in ForeignPart(rules) ==> r.mark != mark
  }

  /** Marked packets find a terminal route. */
  ghost predicate Terminal(k: State) {
    OwnPart(k.rules) == [OWN_RULE] && BLACKHOLE in RoutesIn(k, 100)
  }

  ghost predicate LinkEvents(es: seq<Event>) {
    forall i :: 0 <= i < |es| ==> !es[i].Apply?
  }

  /** Link events take no route but those of the lost device, and bring none back. */
  lemma {:induction false} LinkEventsFrame(k: State, es: seq<Event>)
    requires LinkEvents(es)
    ensures var after := RunEvents(k, es);
            && after.nft == k.nft && after.rules == k.rules
            && (forall r :: r in RoutesIn(after, 100) ==> r in RoutesIn(k, 100))
            && (BLACKHOLE in RoutesIn(k, 100) ==> BLACKHOLE in RoutesIn(after, 100))
    decreases |es|
  {
    if es != [] {
      var next := Step(k, es[0]);
      if es[0].Lost? {
        forall r ensures r in RoutesIn(next, 100) <==> r in RoutesIn(k, 100) && r.hop != Dev(es[0].name) {
          LostRoute(k, es[0].name, 100, r);
        }
      }
      assert LinkEvents(es[1..]);
      LinkEventsFrame(next, es[1..]);
    }
  }

  ghost function FateBy(r: Route): Fate {
    match r.hop
    case Blackhole => Blackholed
    case Dev(name) => ToDevice(name)
  }

  lemma {:induction false} LookupOwn(k: State, rules: seq<FwRule>)
    requires OwnPart(rules) == [OWN_RULE] && NoForeignRule(rules, DEFAULT_MARK) && Best(RoutesIn(k, 100)).Some?
    ensures LookupRules(k, rules, DEFAULT_MARK) == FateBy(Best(RoutesIn(k, 100)).value)
    decreases |rules|
  {
    hide Best, RoutesIn;
    if rules[0].priority == DEFAULT_RULE_PRIORITY {
      assert OwnPart(rules)[0] == rules[0];
    } else {
      assert rules[0] in ForeignPart(rules);
      LookupOwn(k, rules[1..]);
    }
  }

  lemma {:induction false} LookupNone(k: State, rules: seq<FwRule>, mark: Mark)
    requires forall r :: r in rules ==> r.mark != mark
    ensures LookupRules(k, rules, mark) == MainTable
    decreases |rules|
  {
    if rules != [] {
      LookupNone(k, rules[1..], mark);
    }
  }

  lemma {:induction false} RulesAreParts(rules: seq<FwRule>, r: FwRule)
    ensures r in rules <==> r in OwnPart(rules) || r in ForeignPart(rules)
  {
    if rules != [] {
      RulesAreParts(rules[1..], r);
      assert rules == [rules[0]] + rules[1..];
    }
  }

  /** A marked packet is dropped, or leaves by a device route of the owned table. */
  lemma TerminalResolves(k: State)
    requires Terminal(k) && NoForeignRule(k.rules, DEFAULT_MARK)
    ensures Resolve(k, DEFAULT_MARK) == Blackholed
         || exists r :: r in RoutesIn(k, 100) && r.hop.Dev? && Resolve(k, DEFAULT_MARK) == ToDevice(r.hop.name)
  {
    BestIff(RoutesIn(k, 100));
    LookupOwn(k, k.rules);
    hide Best;
    assert Best(RoutesIn(k, 100)).value in RoutesIn(k, 100);
  }

  /** A successful apply ends terminal whatever calls failed unnoticed on the way. */
  lemma ApplyEndsTerminal(k: State, w: World, p: Policy)
    requires OwnedRouting(k) && DefaultNumbers(p) && ApplyPolicy(k, w, p).stage == Done
    ensures Terminal(ApplyPolicy(k, w, p).k) && ForeignPart(ApplyPolicy(k, w, p).k.rules) == ForeignPart(k.rules)
  {
    if !Sound(p) {
      UncompiledApply(k, w, p);
    }
    ApplyStages(k, w, p);
    ApplyRouting(k, w, p);
    hide ApplyPolicy, AfterSysctl, AfterNft, AfterWg, AfterClients, AfterRouting, OwnedRouting, Sound, DefaultNumbers,
      ForeignPart, OwnPart;
    RoutesStageIff(k, w, p);
  }

  /** Fail closed: after a successful apply, through every sequence of link losses and returns without another apply,
      a marked packet is dropped or leaves by a device route of the owned table; it never falls through to main. */
  lemma FailClosed(k: State, w: World, p: Policy, es: seq<Event>)
    requires OwnedRouting(k) && NoForeignRule(k.rules, DEFAULT_MARK)
    requires DefaultNumbers(p) && ApplyPolicy(k, w, p).stage == Done && LinkEvents(es)
    ensures var after := RunEvents(ApplyPolicy(k, w, p).k, es);
            || Resolve(after, DEFAULT_MARK) == Blackholed
            || exists r :: r in RoutesIn(after, 100) && r.hop.Dev? && Resolve(after, DEFAULT_MARK) == ToDevice(r.hop.name)
  {
    var a := ApplyPolicy(k, w, p).k;
    ApplyEndsTerminal(k, w, p);
    LinkEventsFrame(a, es);
    hide ApplyPolicy, Resolve, OwnPart, ForeignPart;
    TerminalResolves(RunEvents(a, es));
  }

  // ----- the whole datapath

  lemma UnmarkedToMain(k: State)
    requires OwnPart(k.rules) == [OWN_RULE] && NoForeignRule(k.rules, 0)
    ensures Resolve(k, 0) == MainTable
  {
    hide OwnPart, ForeignPart, LookupRules;
    forall r | r in k.rules ensures r.mark != 0 {
      RulesAreParts(k.rules, r);
    }
    LookupNone(k, k.rules, 0);
  }

  /** By which way a packet goes, with the table of a history and a terminal route in place. */
  ghost predicate GoesBy(k: State, h: seq<Policy>, pkt: Packet)
    requires h != []
  {
    match pkt.dst
    case V6 => FateOf(k, OWNED, pkt) == NotSent
    case V4(a) =>
      if Spared(h, a) then FateOf(k, OWNED, pkt) == MainTable
      else || FateOf(k, OWNED, pkt) == Blackholed
           || exists r :: r in RoutesIn(k, 100) && r.hop.Dev? && FateOf(k, OWNED, pkt) == ToDevice(r.hop.name)
  }

  lemma HistoryFate(k: State, h: seq<Policy>, pkt: Packet)
    requires h != [] && Tracks(k, h) && Terminal(k) && pkt.mark == 0
    requires NoForeignRule(k.rules, 0) && NoForeignRule(k.rules, DEFAULT_MARK)
    ensures GoesBy(k, h, pkt)
  {
    TracksPile(k, h);
    HistoryMark(k, h, pkt);
    hide Tracks, Pile, PileTable, RunHook, Spared, Resolve, ForeignPart;
    TerminalResolves(k);
    UnmarkedToMain(k);
  }

  lemma HistoryMark(k: State, h: seq<Policy>, pkt: Packet)
    requires h != [] && Tracks(k, h) && pkt.mark == 0
    ensures RunHook(PileTable(h), "prerouting", pkt)
         == match pkt.dst
            case V6 => Dropped
            case V4(a) => Accept(if Spared(h, a) then 0 else DEFAULT_MARK)
  {
    PilePrerouting(h, pkt);
    hide RunHook, PileTable, Pile, Excludes, NetsCover, MarkOf, TableOf, PriorityOf, Sound, MarkLeft;
    if pkt.dst.V4? {
      MarkLeftIff(h, pkt.dst.a, 0);
    }
  }

  /** The gateway's promise over runs: after any run of applies, any call of which may have failed, and of link events,
      then a successful apply, then any link events, an unmarked IPv6 packet is not sent, a destination that the history
      spares goes by the main table, and every other one by a device route of the owned table or not at all. When the
      marks are right the spared destinations are those that do not go to the tunnel, and when the routes are, the device
      is the tunnel's. */
  lemma GatewayPromise(k: State, h: seq<Policy>, es: seq<Event>, w: World, p: Policy, later: seq<Event>, pkt: Packet)
    requires Owned(k, h) && forall i :: 0 <= i < |es| ==> Allowed(es[i])
    requires DefaultNumbers(p) && ApplyPolicy(RunEvents(k, es), w, p).stage == Done
    requires LinkEvents(later) && pkt.mark == 0
    requires NoForeignRule(k.rules, 0) && NoForeignRule(k.rules, DEFAULT_MARK)
    ensures var last, g := RunEvents(k, es), RunHistory(k, h, es);
            var after, n := RunEvents(ApplyPolicy(last, w, p).k, later), Longer(g, w.fails(NftList), p);
            && n != [] && GoesBy(after, n, pkt)
            && (MarksRight(g, w.fails(NftList), p) ==> forall a: Addr :: Spared(n, a) <==> !GoesToTunnel(p, a))
            && (RoutesRight(last, w, p) ==> forall r :: r in RoutesIn(after, 100) && r.hop.Dev? ==> r.hop == Dev(IfaceOf(p)))
  {
    RunKeepsOwned(k, h, es);
    var last, g, a := RunEvents(k, es), RunHistory(k, h, es), ApplyPolicy(RunEvents(k, es), w, p).k;
    var n := Longer(g, w.fails(NftList), p);
    hide ApplyPolicy, RunEvents, RunHistory, Longer, MarksRight, RoutesRight, MarksReached, RoutesReached, Settled, Terminal,
      Spared, GoesToTunnel, GoesBy, Tracks, OwnedRouting, ForeignPart, DefaultNumbers, RoutesIn;
    ApplyReaches(last, g, w, p);
    ApplyEndsTerminal(last, w, p);
    LongerSome(g, w.fails(NftList), p);
    LaterFate(a, n, later, pkt);
    if MarksRight(g, w.fails(NftList), p) {
      RightSpares(a, n, p);
    }
    if RoutesRight(last, w, p) {
      WantedDevices(a, p);
    }
  }

  lemma LaterFate(a: State, n: seq<Policy>, later: seq<Event>, pkt: Packet)
    requires Tracks(a, n) && n != [] && Terminal(a) && LinkEvents(later) && pkt.mark == 0
    requires NoForeignRule(a.rules, 0) && NoForeignRule(a.rules, DEFAULT_MARK)
    ensures GoesBy(RunEvents(a, later), n, pkt)
    ensures forall r :: r in RoutesIn(RunEvents(a, later), 100) ==> r in RoutesIn(a, 100)
  {
    LinkEventsFrame(a, later);
    hide RunEvents, Built, PileTable, GoesBy, ForeignPart, OwnPart;
    HistoryFate(RunEvents(a, later), n, pkt);
  }

  /** By which way a marked packet leaves when the routes are those wanted. */
  lemma ReachedResolves(k: State, p: Policy)
    requires Terminal(k) && NoForeignRule(k.rules, DEFAULT_MARK) && RoutesReached(k, p)
    ensures Resolve(k, DEFAULT_MARK) == if p.tunnelUp then ToDevice(IfaceOf(p)) else Blackholed
  {
    var rs := RoutesIn(k, 100);
    assert BLACKHOLE in RouteSet(k);
    assert forall r :: r in rs <==> r in RouteSet(k);
    assert p.tunnelUp ==> Route(Dev(IfaceOf(p)), 10) in RouteSet(k);
    BestIff(rs);
    LookupOwn(k, k.rules);
    hide Best, OwnPart, ForeignPart, IfaceOf;
    assert Best(rs).value in RouteSet(k);
  }

  /** What the gateway does to a packet without a mark when marks and routes are those of the policy. */
  lemma ReachedFate(k: State, p: Policy, pkt: Packet)
    requires Terminal(k) && MarksReached(k, p) && RoutesReached(k, p) && DefaultNumbers(p) && pkt.mark == 0
    requires NoForeignRule(k.rules, 0) && NoForeignRule(k.rules, DEFAULT_MARK)
    ensures FateOf(k, OWNED, pkt)
         == match pkt.dst
            case V6 => NotSent
            case V4(a) => if !GoesToTunnel(p, a) then MainTable
                          else if p.tunnelUp then ToDevice(IfaceOf(p)) else Blackholed
  {
    PreroutingMeaning(p, pkt);
    ReachedResolves(k, p);
    UnmarkedToMain(k);
    hide RunHook, RenderedTable, Resolve, RoutesReached, GoesToTunnel, Renderable, OwnPart, ForeignPart, NoForeignRule;
    assert RunHook(k.nft[OWNED], "prerouting", pkt) == RunHook(RenderedTable(p), "prerouting", pkt);
  }

  lemma RightSpares(k: State, h: seq<Policy>, p: Policy)
    requires Tracks(k, h) && h != [] && MarksReached(k, p)
    ensures forall a: Addr :: Spared(h, a) <==> !GoesToTunnel(p, a)
  {
    TracksPile(k, h);
    hide Pile, PileTable, RenderedTable, SameAtHook, Renderable, Spared, GoesToTunnel;
    PileMarksIff(h, p);
  }

  lemma WantedDevices(k: State, p: Policy)
    ensures RoutesReached(k, p) ==> forall r :: r in RoutesIn(k, 100) && r.hop.Dev? ==> r.hop == Dev(IfaceOf(p))
  {
    hide IfaceOf;
    if RoutesReached(k, p) {
      forall r | r in RoutesIn(k, 100) && r.hop.Dev? ensures r.hop == Dev(IfaceOf(p)) {
        assert r in RouteSet(k);
      }
    }
  }

  /** Home isolation over runs: under the same conditions the forward hook drops exactly what the history isolates; with
      an inbound interface that includes all that the policy isolates, and is just that when forwarding is right. */
  lemma IsolationPromise(k: State, h: seq<Policy>, es: seq<Event>, w: World, p: Policy, later: seq<Event>, pkt: Packet)
    requires Owned(k, h) && forall i :: 0 <= i < |es| ==> Allowed(es[i])
    requires DefaultNumbers(p) && ApplyPolicy(RunEvents(k, es), w, p).stage == Done && LinkEvents(later)
    ensures var last, g := RunEvents(k, es), RunHistory(k, h, es);
            var after, n := RunEvents(ApplyPolicy(last, w, p).k, later), Longer(g, w.fails(NftList), p);
            && OWNED in after.nft
            && (RunHook(after.nft[OWNED], "forward", pkt) == Dropped <==> IsolatedBy(n, pkt))
            && (Isolated(p, pkt) ==> IsolatedBy(n, pkt))
            && (ForwardRight(g, w.fails(NftList), p) ==> (IsolatedBy(n, pkt) <==> Isolated(p, pkt)))
  {
    RunKeepsOwned(k, h, es);
    var last, g, a := RunEvents(k, es), RunHistory(k, h, es), ApplyPolicy(RunEvents(k, es), w, p).k;
    var n := Longer(g, w.fails(NftList), p);
    ApplyReaches(last, g, w, p);
    LinkEventsFrame(a, later);
    LongerSome(g, w.fails(NftList), p);
    TracksPile(a, n);
    IsolatedStays(g, w.fails(NftList), p, pkt);
    hide ApplyPolicy, RunEvents, RunHistory, Longer, ForwardRight, Built, PileTable, OwnedRouting, Settled, RunHook, Pile,
      IsolatedBy, Isolated, RenderedTable, Renderable;
    PileForward(n, pkt);
    if ForwardReached(a, p) {
      ForwardMeaning(p, pkt);
      assert RunHook(a.nft[OWNED], "forward", pkt) == RunHook(RenderedTable(p), "forward", pkt);
    }
  }

  /** Whatever an apply does to the table, what its policy isolates is isolated. */
  lemma IsolatedStays(h: seq<Policy>, blind: bool, p: Policy, pkt: Packet)
    requires Sound(p) && Pile(Longer(h, blind, p))
    ensures Isolated(p, pkt) ==> IsolatedBy(Longer(h, blind, p), pkt)
  {
    if Isolated(p, pkt) {
      match HowOf(h, blind, p) {
        case Kept =>
          SameMaskedSameCover(HomeLans(h), p.lans, pkt.dst.a);
        case PiledOn =>
          Snoc(h, p);
          CoverConcat(HomeLans(h), p.lans, pkt.dst.a);
        case Rebuilt =>
          One(p);
      }
    }
  }

  // ----- ownership

  lemma ScriptFrame(rs: Ruleset, p: Policy, exists_: bool)
    ensures var after := ExecAll(rs, ApplyScript(exists_, NftOf(p)));
            after.Some? ==> SameElsewhere(rs, after.value, OWNED)
  {
    BodyOnTable(p);
    FullScriptOf(p);
    hide Body, NftOf, SameElsewhere;
    var script := ApplyScript(exists_, NftOf(p));
    assert forall i :: 0 <= i < |script| ==> script[i].id == OWNED;
    ExecAllFrame(rs, OWNED, script);
  }

  lemma NftFrame(k: State, f: Faults, p: Policy)
    ensures SameElsewhere(k.nft, NftStep(k, f, NftOf(p)).k.nft, OWNED)
  {
    ScriptFrame(k.nft, p, true);
    ScriptFrame(k.nft, p, false);
    hide ApplyScript, NftOf, SemanticMatch, Listing, ExecAll;
  }

  lemma {:induction false} RouteAddsFrame(k: State, f: Faults, want: seq<RouteSpec>)
    requires forall i :: 0 <= i < |want| ==> want[i].table == 100
    ensures var a := RouteAdds(k, f, want).0;
            a == k.(routes := a.routes) && forall t :: t != 100 ==> RoutesIn(a, t) == RoutesIn(k, t)
    decreases |want|
  {
    if want != [] {
      var next := RouteReplaced(k, f, 100, RouteOf(want[0])).0;
      assert forall t :: t != 100 ==> RoutesIn(next, t) == RoutesIn(k, t);
      RouteAddsFrame(next, f, want[1..]);
    }
  }

  /** The routing stage, from any state whatever, leaves foreign rules and other tables alone. */
  lemma RoutingFrame(k: State, f: Faults, iface: string, up: bool)
    ensures var o := RoutingSteps(k, f, [OWN_RULE_SPEC], RoutesForTunnel(100, iface, up));
            && o.k == k.(rules := o.k.rules, routes := o.k.routes)
            && ForeignPart(o.k.rules) == ForeignPart(k.rules)
            && (forall t :: t != 100 ==> RoutesIn(o.k, t) == RoutesIn(k, t))
  {
    RuleStepForeign(k, f);
    GroupsOfRoutes(iface, up);
    var want := RoutesForTunnel(100, iface, up);
    var a := RuleSteps(k, f, [OWN_RULE_SPEC]).k;
    RouteAddsFrame(RoutesFlushed(a, f, 100), f, want);
    OneTable(a, f, Group(100, want));
    hide RuleSteps, ForeignPart, TableRoutesMatchSpec, RouteAdds, RoutesForTunnel, GroupAll;
  }

  /** Only the routes of a tunnel interface that is taken down are lost. */
  ghost predicate OthersKept(k: State, a: State, p: Policy) {
    forall t, r :: t != 100 ==> OnlyTakenDown(k, a, p, t, r)
  }

  ghost predicate OnlyTakenDown(k: State, a: State, p: Policy, t: int, r: Route) {
    && (r in RoutesIn(a, t) ==> r in RoutesIn(k, t))
    && (r in RoutesIn(k, t) && r !in RoutesIn(a, t) ==> TakenDown(p, r))
  }

  lemma KeptTwice(k: State, c: State, d: State, p: Policy)
    requires OthersKept(k, c, p) && OthersKept(c, d, p)
    ensures OthersKept(k, d, p)
  {
    hide RoutesIn, TakenDown;
    forall t, r | t != 100 ensures OnlyTakenDown(k, d, p, t, r) {
      assert OnlyTakenDown(k, c, p, t, r) && OnlyTakenDown(c, d, p, t, r);
    }
  }

  lemma SameTablesKept(k: State, a: State, p: Policy)
    requires forall t :: t != 100 ==> RoutesIn(a, t) == RoutesIn(k, t)
    ensures OthersKept(k, a, p)
  {
    hide RoutesIn, TakenDown;
  }

  lemma WgFrame(k: State, w: World, spec: WireGuardSpec, p: Policy)
    requires forall r: Route :: TakesDown(spec, r) ==> TakenDown(p, r)
    requires spec.managed ==> OwnLink(p, spec.iface)
    ensures var o := WgStep(k, w, spec);
            && o.k.nft == k.nft && o.k.rules == k.rules && o.k.sysctls == k.sysctls
            && OthersKept(k, o.k, p) && LinksKept(k, o.k, p)
  {
    WgEffect(k, w, spec);
    var a := WgStep(k, w, spec).k;
    hide RoutesIn, TakenDown, TakesDown, WgStep, OwnLink;
    forall t, r | t != 100 ensures OnlyTakenDown(k, a, p, t, r) {
      WgRoute(k, w, spec, t, r);
    }
  }

  lemma WgStagesFrame(k: State, w: World, p: Policy)
    ensures var c := WgStep(k, w, StateOf(p).wireGuard);
            var d := WgStep(c.k, w, StateOf(p).wireGuardClients);
            && c.k.nft == d.k.nft == k.nft && c.k.rules == d.k.rules == k.rules && c.k.sysctls == d.k.sysctls == k.sysctls
            && OthersKept(k, c.k, p) && OthersKept(k, d.k, p) && LinksKept(k, c.k, p) && LinksKept(k, d.k, p)
  {
    hide WgStep, NftOf, RoutesForTunnel, OthersKept;
    var c := WgStep(k, w, StateOf(p).wireGuard);
    WgFrame(k, w, StateOf(p).wireGuard, p);
    WgFrame(c.k, w, StateOf(p).wireGuardClients, p);
    KeptTwice(k, c.k, WgStep(c.k, w, StateOf(p).wireGuardClients).k, p);
  }

  /** The links that a policy manages. */
  ghost predicate OwnLink(p: Policy, name: string) {
    || (p.wireGuard.privateKey != "" && name == if p.tunnelInterface == "" then "wg-exit" else p.tunnelInterface)
    || (p.inboundWireGuard.privateKey != "" && name == "wg-clients")
  }

  ghost predicate LinksKept(k: State, a: State, p: Policy) {
    forall n :: !OwnLink(p, n) ==> (n in a.links <==> n in k.links)
  }

  ghost predicate OwnKey(key: string) {
    key in {"net.ipv4.ip_forward", "net.ipv6.conf.all.disable_ipv6", "net.ipv6.conf.default.disable_ipv6"}
  }

  ghost predicate SysctlsKept(k: State, a: State) {
    forall key :: !OwnKey(key) ==> SameKey(k, a, key)
  }

  lemma {:induction false} SysctlOthers(k: State, f: Faults, specs: seq<SysctlSpec>, key: string)
    requires forall i :: 0 <= i < |specs| ==> specs[i].key != key
    ensures SameKey(k, SysctlSteps(k, f, specs).k, key)
    decreases |specs|
  {
    if specs != [] {
      SysctlOthers(SysctlStep(k, f, specs[0]).k, f, specs[1..], key);
    }
  }

  lemma SysctlStageOthers(k: State, w: World)
    ensures SysctlsKept(k, AfterSysctl(k, w).k)
  {
    hide SysctlSteps, SameKey;
    forall key | !OwnKey(key) ensures SameKey(k, AfterSysctl(k, w).k, key) {
      SysctlOthers(k, w.fails, Sysctls(), key);
    }
  }

  /** What a policy does not own is as it was, but for the routes of a tunnel interface that is taken down. */
  ghost predicate OthersUntouched(k: State, a: State, p: Policy) {
    && SameElsewhere(k.nft, a.nft, OWNED) && ForeignPart(a.rules) == ForeignPart(k.rules)
    && OthersKept(k, a, p) && LinksKept(k, a, p) && SysctlsKept(k, a)
  }

  lemma EarlyStagesFrame(k: State, w: World, p: Policy)
    ensures OthersUntouched(k, AfterSysctl(k, w).k, p) && OthersUntouched(k, AfterNft(k, w, p).k, p)
  {
    SysctlStageFrame(k, w);
    SysctlStageOthers(k, w);
    NftStageFrame(k, w, p);
    hide AfterSysctl, SameElsewhere, ForeignPart, OthersKept, NftStep, NftOf, OwnLink, OwnKey;
    NftFrame(AfterSysctl(k, w).k, w.fails, p);
    SameTablesKept(k, AfterSysctl(k, w).k, p);
    SameTablesKept(k, AfterNft(k, w, p).k, p);
    SameElsewhereItself(k.nft);
  }

  lemma SameElsewhereItself(rs: Ruleset)
    ensures SameElsewhere(rs, rs, OWNED)
  {
  }

  lemma LateStagesFrame(k: State, w: World, p: Policy)
    requires DefaultNumbers(p)
    ensures OthersUntouched(k, AfterWg(k, w, p).k, p) && OthersUntouched(k, AfterClients(k, w, p).k, p)
    ensures OthersUntouched(k, AfterRouting(k, w, p).k, p)
  {
    EarlyStagesFrame(k, w, p);
    var n, d, o := AfterNft(k, w, p).k, AfterClients(k, w, p).k, AfterRouting(k, w, p).k;
    hide AfterNft, SameElsewhere, ForeignPart, OthersKept, WgStep, RoutingSteps, OwnLink, OwnKey;
    WgStagesFrame(n, w, p);
    RoutingFrame(d, w.fails, IfaceOf(p), p.tunnelUp);
    SameTablesKept(d, o, p);
    KeptTwice(k, n, AfterWg(k, w, p).k, p);
    KeptTwice(k, n, d, p);
    KeptTwice(k, d, o, p);
  }

  /** An apply touches nothing it does not own, from any state whatever and whatever fails in it: other nft tables keep
      their contents, rules at other priorities stay as they are and in order, other routing tables lose at most the
      routes of a managed tunnel interface that is taken down, no link changes but those that the policy manages, and no
      sysctl but its three. */
  lemma OnlyOwnedObjects(k: State, w: World, p: Policy)
    requires DefaultNumbers(p)
    ensures OthersUntouched(k, ApplyPolicy(k, w, p).k, p)
  {
    if Sound(p) {
      ApplyStages(k, w, p);
      EarlyStagesFrame(k, w, p);
      LateStagesFrame(k, w, p);
      hide ApplyPolicy, AfterSysctl, AfterNft, AfterWg, AfterClients, AfterRouting, OthersUntouched;
    } else {
      UncompiledApply(k, w, p);
    }
  }
}
