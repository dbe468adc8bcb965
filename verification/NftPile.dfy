/** The tables that applies leave. The script of a policy builds a table from nothing; run without deleting
  first, it piles the policy on what is there. A history lists the policies of one table, oldest first. */
module NftPile {
  import opened Wrappers
  import opened Policy
  import opened NftKernel
  import opened NftRender

  const OWNED: TableId := TableId("inet", "gotun")

  // ----- the rules of one policy

  ghost function PreroutingLines(p: Policy): seq<Rule> {
    [Rule([IsIPv6], Drop, "drop-ipv6")] + ExcludeNets(p.lans) + ExcludeIps([p.tunnelEndpoint])
      + [Rule([DstNotIn(RU_NETS)], SetMark(MarkOf(p)), "mark-non-direct")]
  }

  const FORWARD_LINE: Rule :=
    Rule([InIface(DEFAULT_CLIENTS_IFACE), DstIn(HOME_NETS)], Drop, "isolate-inbound-from-home")

  ghost function ForwardRules(p: Policy): seq<ChainRule> {
    if InboundManaged(p) then InChain("forward", [FORWARD_LINE]) else []
  }

  ghost function RulesOf(p: Policy): seq<ChainRule> {
    InChain("prerouting", PreroutingLines(p)) + ForwardRules(p)
  }

  lemma LinesOfPrerouting(p: Policy)
    requires p.tunnelEndpoint != NoIp
    ensures AllLines(PreroutingChain(p).rules) == PreroutingLines(p)
  {
    AllLinesOneTwo(DropIPv6Rule(), MarkRule(p));
  }

  lemma LinesOfForward()
    ensures AllLines(ForwardChain().rules) == [FORWARD_LINE]
  {
    AllLinesOneTwo(IsolateRule(), IsolateRule());
  }

  // ----- the script on any table

  /** Rule operands are IPv4. */
  ghost predicate Operands4(p: Policy) {
    AllNet4(p.lans) && p.tunnelEndpoint.Ip4?
  }

  ghost predicate ChainFits(t: Table, chain: NftChainSpec) {
    chain.name in t.chains ==> t.chains[chain.name] == DeclOf(chain)
  }

  /** The table takes the script of a policy. */
  ghost predicate Takes(t: Table, p: Policy) {
    && AllNet4(p.directPrefixes) && Operands4(p)
    && SetFits(t, RuNetsSet(p)) && (InboundManaged(p) ==> SetFits(t, HomeNetsSet(p)))
    && ChainFits(t, PreroutingChain(p)) && (InboundManaged(p) ==> ChainFits(t, ForwardChain()))
  }

  ghost function WithSets(t: Table, p: Policy): Table
    requires AllNet4(p.directPrefixes) && AllNet4(p.lans)
  {
    var ru := AddSetTo(t, RuNetsSet(p));
    if InboundManaged(p) then AddSetTo(ru, HomeNetsSet(p)) else ru
  }

  ghost function WithChains(t: Table, p: Policy): Table {
    var pre := AddChainTo(t, PreroutingChain(p));
    if InboundManaged(p) then AddChainTo(pre, ForwardChain()) else pre
  }

  /** The table after the script. */
  ghost function Onto(t: Table, p: Policy): Table
    requires AllNet4(p.directPrefixes) && AllNet4(p.lans)
  {
    WithChains(WithSets(t, p), p)
  }

  ghost function Body(p: Policy): seq<Command> {
    SetsScript(OWNED, NftOf(p).sets) + ChainsScript(OWNED, NftOf(p).chains)
  }

  lemma ReplaySets(t: Table, p: Policy)
    requires AllNet4(p.directPrefixes) && AllNet4(p.lans)
    ensures ExecAllIn(t, SetsScript(OWNED, NftOf(p).sets))
         == if SetFits(t, RuNetsSet(p)) && (InboundManaged(p) ==> SetFits(t, HomeNetsSet(p))) then Some(WithSets(t, p))
            else None
  {
    hide SetScript, ExecAllIn, SetsScript, MaskedSet, Apart;
    assert |RU_NETS| != |HOME_NETS|;
    SetsScriptOneTwo(OWNED, RuNetsSet(p), HomeNetsSet(p));
    var ru := AddSetTo(t, RuNetsSet(p));
    ReplaySet(t, OWNED, RuNetsSet(p));
    if InboundManaged(p) {
      ReplaySet(ru, OWNED, HomeNetsSet(p));
      ExecAllInConcat(t, SetScript(OWNED, RuNetsSet(p)), SetScript(OWNED, HomeNetsSet(p)));
      assert NftOf(p).sets == [RuNetsSet(p), HomeNetsSet(p)];
    } else {
      assert NftOf(p).sets == [RuNetsSet(p)];
    }
  }

  lemma PreroutingAccepted(t: Table, p: Policy)
    requires Operands4(p) && RU_NETS in t.sets
    ensures AllAccepted(t, PreroutingLines(p))
  {
  }

  lemma ForwardAccepted(t: Table)
    requires HOME_NETS in t.sets
    ensures AllAccepted(t, AllLines(ForwardChain().rules))
  {
    LinesOfForward();
  }

  lemma ReplayChains(t: Table, p: Policy)
    requires Operands4(p) && RU_NETS in t.sets && (InboundManaged(p) ==> HOME_NETS in t.sets)
    ensures ExecAllIn(t, ChainsScript(OWNED, NftOf(p).chains))
         == if ChainFits(t, PreroutingChain(p)) && (InboundManaged(p) ==> ChainFits(t, ForwardChain()))
            then Some(WithChains(t, p)) else None
  {
    LinesOfPrerouting(p);
    PreroutingAccepted(t, p);
    hide ChainScript, ExecAllIn, AllLines, PreroutingLines, ChainsScript, AllAccepted;
    assert |"prerouting"| != |"forward"|;
    ChainsScriptOneTwo(OWNED, PreroutingChain(p), ForwardChain());
    var pre := AddChainTo(t, PreroutingChain(p));
    ReplayChain(t, OWNED, PreroutingChain(p));
    if InboundManaged(p) {
      ForwardAccepted(pre);
      ReplayChain(pre, OWNED, ForwardChain());
      ExecAllInConcat(t, ChainScript(OWNED, PreroutingChain(p)), ChainScript(OWNED, ForwardChain()));
      assert NftOf(p).chains == [PreroutingChain(p), ForwardChain()];
    } else {
      assert NftOf(p).chains == [PreroutingChain(p)];
    }
  }

  /** A rule of the script that no table accepts. */
  lemma BadRule(p: Policy) returns (bad: Rule)
    requires p.tunnelEndpoint != NoIp && !Operands4(p)
    ensures bad in PreroutingLines(p)
    ensures forall t: Table :: !RuleAccepted(t, bad)
  {
    if i :| 0 <= i < |p.lans| && !p.lans[i].Net4? {
      bad := Rule([DstNet(p.lans[i])], Return, "exclude-lan");
      assert ExcludeNets(p.lans)[i] == bad;
    } else {
      bad := Rule([DstIp(p.tunnelEndpoint)], Return, "exclude-endpoint");
      assert ExcludeIps([p.tunnelEndpoint])[0] == bad;
    }
    forall t: Table ensures !RuleAccepted(t, bad) {
      assert !MatchAccepted(t, bad.matches[0]);
    }
  }

  lemma RuleInBody(p: Policy, r: Rule)
    requires p.tunnelEndpoint != NoIp && r in PreroutingLines(p)
    ensures AddRule(OWNED, "prerouting", r) in Body(p)
  {
    LinesOfPrerouting(p);
    hide PreroutingLines, AllLines, SetsScript;
    var lines := PreroutingLines(p);
    var i :| 0 <= i < |lines| && lines[i] == r;
    var c := AddRule(OWNED, "prerouting", r);
    assert AddRules(OWNED, "prerouting", lines)[i] == c;
    assert c in ChainScript(OWNED, PreroutingChain(p));
    assert NftOf(p).chains[0] == PreroutingChain(p);
    assert c in ChainsScript(OWNED, NftOf(p).chains);
  }

  /** The script of a policy that compiles, on any table at all: it fails or adds exactly what is declared. */
  lemma BodyIff(t: Table, p: Policy)
    requires Sound(p)
    ensures ExecAllIn(t, Body(p)) == if Takes(t, p) then Some(Onto(t, p)) else None
  {
    if Operands4(p) {
      var s := WithSets(t, p);
      ReplaySets(t, p);
      ReplayChains(s, p);
      hide SetsScript, ChainsScript, ExecAllIn, SetFits, WithChains;
      ExecAllInConcat(t, SetsScript(OWNED, NftOf(p).sets), ChainsScript(OWNED, NftOf(p).chains));
      assert s.chains == t.chains;
    } else {
      var bad := BadRule(p);
      RuleInBody(p, bad);
      hide PreroutingLines, Body, ExecAllIn, RuleAccepted;
      BadCommandFails(t, Body(p), AddRule(OWNED, "prerouting", bad));
    }
  }

  // ----- scripts on the whole ruleset

  lemma {:induction false} SetsOnTable(sets: seq<NftSetSpec>)
    ensures OnTable(SetsScript(OWNED, sets), OWNED)
  {
    if sets != [] {
      SetsOnTable(sets[1..]);
      BatchesOn(OWNED, sets[0].name, Batches(Strings(sets[0].elements)));
    }
  }

  lemma {:induction false} ChainsOnTable(chains: seq<NftChainSpec>)
    ensures OnTable(ChainsScript(OWNED, chains), OWNED)
  {
    if chains != [] {
      ChainsOnTable(chains[1..]);
    }
  }

  lemma BodyOnTable(p: Policy)
    ensures OnTable(Body(p), OWNED)
  {
    SetsOnTable(NftOf(p).sets);
    ChainsOnTable(NftOf(p).chains);
  }

  /** The script of nftables.Reconcile: delete what is there, then build anew. */
  ghost function ApplyScript(exists_: bool, spec: NftSpec): seq<Command> {
    (if exists_ then [DeleteTable(IdOf(spec))] else []) + FullScript(spec)
  }

  lemma FullScriptOf(p: Policy)
    ensures IdOf(NftOf(p)) == OWNED && FullScript(NftOf(p)) == [AddTable(OWNED)] + Body(p)
  {
    hide SetsScript, ChainsScript;
    assert IdOf(NftOf(p)) == OWNED;
  }

  /** The table that a script starts from. */
  ghost function Before(rs: Ruleset): Table {
    if OWNED in rs then rs[OWNED] else EMPTY_TABLE
  }

  lemma TableAdded(rs: Ruleset, t: Table)
    ensures Exec(rs, AddTable(OWNED)) == Some(rs[OWNED := Before(rs)])
    ensures rs[OWNED := Before(rs)][OWNED := t] == rs[OWNED := t]
  {
    if OWNED in rs {
      assert rs[OWNED := rs[OWNED]] == rs;
    }
  }

  /** The script without the delete. */
  lemma BlindScript(rs: Ruleset, p: Policy)
    requires Sound(p)
    ensures ExecAll(rs, ApplyScript(false, NftOf(p)))
         == if Takes(Before(rs), p) then Some(rs[OWNED := Onto(Before(rs), p)]) else None
  {
    var next := rs[OWNED := Before(rs)];
    assert ApplyScript(false, NftOf(p)) == FullScript(NftOf(p));
    hide *;
    FullScriptOf(p);
    BodyOnTable(p);
    BodyIff(Before(rs), p);
    ExecAllFirst(rs, AddTable(OWNED), Body(p));
    ExecAllLocal(next, OWNED, Body(p));
    TableAdded(rs, if Takes(Before(rs), p) then Onto(Before(rs), p) else EMPTY_TABLE);
  }

  lemma Deleting(rs: Ruleset, t: Table)
    ensures Exec(rs, DeleteTable(OWNED)) == if OWNED in rs then Some(rs - {OWNED}) else None
    ensures Before(rs - {OWNED}) == EMPTY_TABLE
    ensures (rs - {OWNED})[OWNED := t] == rs[OWNED := t]
  {
  }

  lemma ApplyScripts(spec: NftSpec)
    ensures ApplyScript(true, spec) == [DeleteTable(IdOf(spec))] + FullScript(spec)
    ensures ApplyScript(false, spec) == FullScript(spec)
  {
    hide FullScript;
  }

  /** The script with the delete. */
  lemma CleanScript(rs: Ruleset, p: Policy)
    requires Sound(p)
    ensures ExecAll(rs, ApplyScript(true, NftOf(p)))
         == if OWNED in rs && Takes(EMPTY_TABLE, p) then Some(rs[OWNED := Onto(EMPTY_TABLE, p)]) else None
  {
    var clean := rs - {OWNED};
    FullScriptOf(p);
    Deleting(rs, if Takes(EMPTY_TABLE, p) then Onto(EMPTY_TABLE, p) else EMPTY_TABLE);
    ApplyScripts(NftOf(p));
    hide *;
    BlindScript(clean, p);
    ExecAllFirst(rs, DeleteTable(OWNED), FullScript(NftOf(p)));
  }

  // ----- histories

  ghost function AllDirect(h: seq<Policy>): seq<Net> {
    if h == [] then [] else h[0].directPrefixes + AllDirect(h[1..])
  }

  ghost function AllLans(h: seq<Policy>): seq<Net> {
    if h == [] then [] else h[0].lans + AllLans(h[1..])
  }

  ghost function HomeOf(p: Policy): seq<Net> {
    if InboundManaged(p) then p.lans else []
  }

  /** The networks of the home_nets set: the LANs of the policies with an inbound interface. */
  ghost function HomeLans(h: seq<Policy>): seq<Net> {
    if h == [] then [] else HomeOf(h[0]) + HomeLans(h[1..])
  }

  ghost function PileRules(h: seq<Policy>): seq<ChainRule> {
    if h == [] then [] else RulesOf(h[0]) + PileRules(h[1..])
  }

  ghost predicate AnyInbound(h: seq<Policy>) {
    exists i :: 0 <= i < |h| && InboundManaged(h[i])
  }

  /** A history that the kernel takes: IPv4 throughout, and no two intervals of a set overlap. */
  ghost predicate Pile(h: seq<Policy>) {
    && h != [] && (forall i :: 0 <= i < |h| ==> h[i].tunnelEndpoint.Ip4?)
    && AllNet4(AllDirect(h)) && AllNet4(AllLans(h)) && AllNet4(HomeLans(h))
    && Apart(MaskedSet(AllDirect(h))) && Apart(MaskedSet(HomeLans(h)))
  }

  ghost function PileSets(h: seq<Policy>): map<string, SetDecl>
    requires Pile(h)
  {
    var ru := map[RU_NETS := SetDecl("ipv4_addr", MaskedSet(AllDirect(h)))];
    if AnyInbound(h) then ru[HOME_NETS := SetDecl("ipv4_addr", MaskedSet(HomeLans(h)))] else ru
  }

  const PREROUTING_DECL := ChainDecl("filter", "prerouting", -150, "accept")
  const FORWARD_DECL := ChainDecl("filter", "forward", 0, "accept")

  ghost function PileChains(h: seq<Policy>): map<string, ChainDecl> {
    var pre := map["prerouting" := PREROUTING_DECL];
    if AnyInbound(h) then pre["forward" := FORWARD_DECL] else pre
  }

  /** The table of a history. */
  ghost function PileTable(h: seq<Policy>): Table
    requires Pile(h)
  {
    Table(PileSets(h), PileChains(h), PileRules(h))
  }

  lemma {:induction false} Snoc(h: seq<Policy>, p: Policy)
    ensures AllDirect(h + [p]) == AllDirect(h) + p.directPrefixes
    ensures AllLans(h + [p]) == AllLans(h) + p.lans
    ensures HomeLans(h + [p]) == HomeLans(h) + HomeOf(p)
    ensures PileRules(h + [p]) == PileRules(h) + RulesOf(p)
    ensures AnyInbound(h + [p]) <==> AnyInbound(h) || InboundManaged(p)
  {
    SnocInbound(h, p);
    hide RulesOf, HomeOf, InboundManaged, AnyInbound;
    var g := h + [p];
    if h == [] {
      assert g == [p] && g[1..] == [];
    } else {
      Snoc(h[1..], p);
      assert g[0] == h[0] && g[1..] == h[1..] + [p];
      Regroup(h[0].directPrefixes, AllDirect(h[1..]), p.directPrefixes);
      Regroup(h[0].lans, AllLans(h[1..]), p.lans);
      Regroup(HomeOf(h[0]), HomeLans(h[1..]), HomeOf(p));
      Regroup(RulesOf(h[0]), PileRules(h[1..]), RulesOf(p));
    }
  }

  lemma Regroup<T>(a: seq<T>, b: seq<T>, c: seq<T>)
    ensures a + (b + c) == (a + b) + c
  {
  }

  lemma SnocInbound(h: seq<Policy>, p: Policy)
    ensures AnyInbound(h + [p]) <==> AnyInbound(h) || InboundManaged(p)
  {
    var g := h + [p];
    if i :| 0 <= i < |h| && InboundManaged(h[i]) {
      assert InboundManaged(g[i]);
    }
    if InboundManaged(p) {
      assert InboundManaged(g[|h|]);
    }
  }

  lemma One(p: Policy)
    ensures AllDirect([p]) == p.directPrefixes && AllLans([p]) == p.lans && HomeLans([p]) == HomeOf(p)
    ensures PileRules([p]) == RulesOf(p) && (AnyInbound([p]) <==> InboundManaged(p))
  {
    hide RulesOf, HomeOf;
    Snoc([], p);
    assert [] + [p] == [p];
  }

  /** The policies whose script the kernel takes: IPv4 operands, and no overlap within a set. */
  ghost predicate Renderable(p: Policy) {
    && AllNet4(p.directPrefixes) && AllNet4(p.lans) && p.tunnelEndpoint.Ip4?
    && Apart(MaskedSet(p.directPrefixes)) && (InboundManaged(p) ==> Apart(MaskedSet(p.lans)))
  }

  lemma MaskedSetEmpty()
    ensures MaskedSet([]) == {} && Apart({})
  {
  }

  lemma PileOne(p: Policy)
    ensures Renderable(p) <==> Pile([p])
  {
    One(p);
    MaskedSetEmpty();
    hide Apart, MaskedSet;
    assert [p][0] == p;
  }

  /** The table that the script of a policy builds from nothing. */
  ghost function RenderedTable(p: Policy): Table
    requires Renderable(p)
  {
    PileOne(p);
    PileTable([p])
  }

  // ----- a script makes a history longer

  lemma {:induction false} NoInbound(h: seq<Policy>)
    ensures !AnyInbound(h) ==> HomeLans(h) == []
  {
    if h != [] && !AnyInbound(h) {
      assert forall i :: 0 <= i < |h[1..]| ==> h[1..][i] == h[i + 1];
      NoInbound(h[1..]);
    }
  }

  /** Every part of a history is IPv4. */
  lemma LastIs4(h: seq<Policy>, p: Policy)
    requires Pile(h + [p])
    ensures AllNet4(p.directPrefixes) && Operands4(p)
  {
    Snoc(h, p);
    assert (h + [p])[|h|] == p;
    var d, l := AllDirect(h), AllLans(h);
    assert forall i :: 0 <= i < |p.directPrefixes| ==> (d + p.directPrefixes)[|d| + i] == p.directPrefixes[i];
    assert forall i :: 0 <= i < |p.lans| ==> (l + p.lans)[|l| + i] == p.lans[i];
  }

  lemma LongerIff(h: seq<Policy>, p: Policy)
    requires Pile(h) && AllNet4(p.directPrefixes) && Operands4(p)
    ensures AllNet4(AllDirect(h + [p])) && AllNet4(HomeLans(h + [p]))
    ensures MaskedSet(AllDirect(h + [p])) == MaskedSet(AllDirect(h)) + MaskedSet(p.directPrefixes)
    ensures MaskedSet(HomeLans(h + [p])) == MaskedSet(HomeLans(h)) + MaskedSet(HomeOf(p))
    ensures Pile(h + [p]) <==> && Apart(MaskedSet(AllDirect(h)) + MaskedSet(p.directPrefixes))
                               && Apart(MaskedSet(HomeLans(h)) + MaskedSet(HomeOf(p)))
  {
    Snoc(h, p);
    MaskedSetConcat(AllDirect(h), p.directPrefixes);
    MaskedSetConcat(AllLans(h), p.lans);
    MaskedSetConcat(HomeLans(h), HomeOf(p));
    hide MaskedSet, Apart, AllDirect, AllLans, HomeLans, HomeOf;
    assert forall i :: 0 <= i <= |h| ==> (h + [p])[i] == if i < |h| then h[i] else p;
  }

  lemma PileElems(h: seq<Policy>)
    requires Pile(h)
    ensures ElemsIn(PileTable(h), RU_NETS) == MaskedSet(AllDirect(h))
    ensures ElemsIn(PileTable(h), HOME_NETS) == MaskedSet(HomeLans(h))
    ensures forall s :: s in PileTable(h).sets ==> PileTable(h).sets[s].typ == "ipv4_addr"
    ensures RU_NETS in PileTable(h).sets && (HOME_NETS in PileTable(h).sets <==> AnyInbound(h))
  {
    NoInbound(h);
    MaskedSetEmpty();
    hide MaskedSet, Apart, AllDirect, AllLans, HomeLans, PileRules;
    assert |RU_NETS| != |HOME_NETS|;
  }

  lemma ChainsFit(h: seq<Policy>, p: Policy)
    requires Pile(h)
    ensures ChainFits(PileTable(h), PreroutingChain(p)) && ChainFits(PileTable(h), ForwardChain())
  {
    hide PileSets, PileRules, Pile;
    assert |"prerouting"| != |"forward"|;
  }

  lemma PileFitsIff(h: seq<Policy>, p: Policy)
    requires Pile(h) && AllNet4(p.directPrefixes) && Operands4(p)
    ensures Takes(PileTable(h), p) <==> Pile(h + [p])
  {
    LongerIff(h, p);
    PileElems(h);
    ChainsFit(h, p);
    MaskedSetEmpty();
    PileApart(h);
    hide MaskedSet, Apart, Pile, PileTable, ElemsIn, ChainFits, AllDirect, HomeLans;
    var d, l := MaskedSet(AllDirect(h)), MaskedSet(HomeLans(h));
    assert d + {} == d && l + {} == l;
  }

  lemma PileApart(h: seq<Policy>)
    requires Pile(h)
    ensures AllNet4(AllDirect(h)) && AllNet4(HomeLans(h))
    ensures Apart(MaskedSet(AllDirect(h))) && Apart(MaskedSet(HomeLans(h)))
  {
  }

  lemma OntoRules(t: Table, p: Policy)
    requires AllNet4(p.directPrefixes) && Operands4(p)
    ensures Onto(t, p).rules == t.rules + RulesOf(p)
  {
    LinesOfPrerouting(p);
    LinesOfForward();
    hide MaskedSet, AllLines, PreroutingLines;
    var lines := InChain("prerouting", PreroutingLines(p));
    assert t.rules + (lines + ForwardRules(p)) == t.rules + lines + ForwardRules(p);
  }

  lemma OntoSets(t: Table, p: Policy)
    requires AllNet4(p.directPrefixes) && Operands4(p)
    ensures Onto(t, p).sets
         == var ru := t.sets[RU_NETS := SetDecl("ipv4_addr", ElemsIn(t, RU_NETS) + MaskedSet(p.directPrefixes))];
            if InboundManaged(p) then ru[HOME_NETS := SetDecl("ipv4_addr", ElemsIn(t, HOME_NETS) + MaskedSet(p.lans))]
            else ru
    ensures Onto(t, p).chains
         == var pre := t.chains["prerouting" := PREROUTING_DECL];
            if InboundManaged(p) then pre["forward" := FORWARD_DECL] else pre
  {
    hide MaskedSet, AllLines, InChain;
    assert |RU_NETS| != |HOME_NETS|;
  }

  lemma GrownMap<V>(a: string, b: string, x: V, nx: V, y: V, ny: V, any: bool, more: bool)
    requires a != b && (!more ==> ny == y)
    ensures var m := if any then map[a := x][b := y] else map[a := x];
            (if more then m[a := nx][b := ny] else m[a := nx]) == if any || more then map[a := nx][b := ny] else map[a := nx]
  {
  }

  lemma OntoPileSets(h: seq<Policy>, p: Policy)
    requires Pile(h) && Pile(h + [p]) && AllNet4(p.directPrefixes) && Operands4(p)
    ensures Onto(PileTable(h), p).sets == PileSets(h + [p])
  {
    Snoc(h, p);
    LongerIff(h, p);
    PileElems(h);
    MaskedSetEmpty();
    OntoSets(PileTable(h), p);
    hide MaskedSet, Apart, AllDirect, HomeLans, AllLans, Onto, ElemsIn, Pile, AnyInbound, PileChains, PileRules;
    var d, l := MaskedSet(AllDirect(h)), MaskedSet(HomeLans(h));
    assert |RU_NETS| != |HOME_NETS| && l + {} == l;
    GrownMap(RU_NETS, HOME_NETS, SetDecl("ipv4_addr", d), SetDecl("ipv4_addr", d + MaskedSet(p.directPrefixes)),
             SetDecl("ipv4_addr", l), SetDecl("ipv4_addr", l + MaskedSet(HomeOf(p))), AnyInbound(h), InboundManaged(p));
  }

  lemma OntoPileChains(h: seq<Policy>, p: Policy)
    requires Pile(h) && AllNet4(p.directPrefixes) && Operands4(p)
    ensures Onto(PileTable(h), p).chains == PileChains(h + [p])
  {
    Snoc(h, p);
    OntoSets(PileTable(h), p);
    hide Onto, Pile, AnyInbound, PileSets, PileRules;
    assert |"prerouting"| != |"forward"|;
    GrownMap("prerouting", "forward", PREROUTING_DECL, PREROUTING_DECL, FORWARD_DECL, FORWARD_DECL,
             AnyInbound(h), InboundManaged(p));
  }

  lemma OntoPile(h: seq<Policy>, p: Policy)
    requires Pile(h) && Pile(h + [p]) && AllNet4(p.directPrefixes) && Operands4(p)
    ensures Onto(PileTable(h), p) == PileTable(h + [p])
  {
    Snoc(h, p);
    OntoRules(PileTable(h), p);
    OntoPileSets(h, p);
    OntoPileChains(h, p);
    hide Onto, Pile, PileSets, PileChains, PileRules;
  }

  /** A table takes a further policy exactly if the longer history is a pile, and then becomes its table. */
  lemma PileTakesIff(h: seq<Policy>, p: Policy)
    requires Pile(h) && Sound(p)
    ensures Takes(PileTable(h), p) <==> Pile(h + [p])
    ensures Takes(PileTable(h), p) ==> Onto(PileTable(h), p) == PileTable(h + [p])
  {
    if Pile(h + [p]) {
      LastIs4(h, p);
    }
    hide PileTable, Onto, Pile;
    if Operands4(p) {
      PileFitsIff(h, p);
      if Pile(h + [p]) {
        OntoPile(h, p);
      }
    }
  }

  /** Nothing takes a policy exactly if it is renderable, and becomes its rendered table. */
  lemma EmptyTakesIff(p: Policy)
    requires Sound(p)
    ensures Takes(EMPTY_TABLE, p) <==> Renderable(p)
    ensures Takes(EMPTY_TABLE, p) ==> Onto(EMPTY_TABLE, p) == RenderedTable(p)
  {
    One(p);
    MaskedSetEmpty();
    hide MaskedSet, Apart;
    assert |RU_NETS| != |HOME_NETS|;
    assert {} + MaskedSet(p.directPrefixes) == MaskedSet(p.directPrefixes);
    assert AllNet4(p.lans) ==> {} + MaskedSet(p.lans) == MaskedSet(p.lans);
    if Renderable(p) {
      OntoEmpty(p);
    }
  }

  lemma OntoEmpty(p: Policy)
    requires Renderable(p)
    ensures Onto(EMPTY_TABLE, p) == RenderedTable(p)
  {
    One(p);
    PileOne(p);
    OntoRules(EMPTY_TABLE, p);
    OntoSets(EMPTY_TABLE, p);
    hide MaskedSet, Apart, AllDirect, HomeLans, AllLans, Onto, Pile, AnyInbound, RulesOf, PileRules;
    assert |RU_NETS| != |HOME_NETS| && |"prerouting"| != |"forward"|;
    var t := Onto(EMPTY_TABLE, p);
    assert {} + MaskedSet(p.directPrefixes) == MaskedSet(p.directPrefixes) && {} + MaskedSet(p.lans) == MaskedSet(p.lans);
    assert [] + RulesOf(p) == RulesOf(p);
    assert t.sets == PileSets([p]);
    assert t.chains == PileChains([p]);
  }

  /** Replaying the script of an apply that listed the table: it becomes the policy's own, every other table is left
      alone; or the script is rejected. */
  lemma ScriptBuildsTable(rs: Ruleset, p: Policy)
    requires Sound(p)
    ensures ExecAll(rs, ApplyScript(OWNED in rs, NftOf(p)))
         == if Renderable(p) then Some(rs[OWNED := RenderedTable(p)]) else None
  {
    EmptyTakesIff(p);
    hide ExecAll, Takes, Onto, RenderedTable, Renderable, NftOf, ApplyScript;
    if OWNED in rs {
      CleanScript(rs, p);
    } else {
      BlindScript(rs, p);
    }
  }

  /** A policy that is not renderable compiles, but its script fails whatever the kernel holds. */
  lemma ScriptRejected(rs: Ruleset, p: Policy, exists_: bool)
    requires Sound(p) && !Renderable(p)
    ensures ExecAll(rs, ApplyScript(exists_, NftOf(p))) == None
  {
    forall t ensures !Takes(t, p) {
      if Takes(t, p) {
        TakesRenderable(t, p);
      }
    }
    hide ExecAll, Takes, Onto, NftOf, ApplyScript;
    if exists_ {
      CleanScript(rs, p);
    } else {
      BlindScript(rs, p);
    }
  }

  lemma TakesRenderable(t: Table, p: Policy)
    requires Takes(t, p)
    ensures Renderable(p)
  {
    MaskedSetEmpty();
    hide MaskedSet, Apart;
    if p.directPrefixes != [] {
      ApartParts(ElemsIn(t, RU_NETS), MaskedSet(p.directPrefixes));
    }
    if InboundManaged(p) && p.lans != [] {
      ApartParts(ElemsIn(t, HOME_NETS), MaskedSet(p.lans));
    }
  }

  /** Replaying the script of an apply that could not list a table that is there: the history gets longer, or the
      script is rejected. */
  lemma ScriptPilesUp(rs: Ruleset, h: seq<Policy>, p: Policy)
    requires Sound(p) && Pile(h) && OWNED in rs && rs[OWNED] == PileTable(h)
    ensures ExecAll(rs, ApplyScript(false, NftOf(p)))
         == if Pile(h + [p]) then Some(rs[OWNED := PileTable(h + [p])]) else None
  {
    BlindScript(rs, p);
    PileTakesIff(h, p);
  }
}
