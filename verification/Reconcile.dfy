/** The reconcilers of each subsystem and the pipeline that drives them, step by step on the runner,
  each against a function of the state it starts in. */
module Reconcile {
  import opened Wrappers
  import opened Text
  import opened Sorting
  import opened Policy
  import opened NftKernel
  import opened NftRender
  import opened NftPile
  import opened NftLive
  import opened Routing
  import opened RuleListing
  import opened Kernel

  /** The state an operation leaves, the changes it counted, and whether it returned no error. */
  datatype Outcome = Outcome(k: State, changes: nat, ok: bool)

  function Plus(n: nat, o: Outcome): Outcome {
    Outcome(o.k, n + o.changes, o.ok)
  }

  // ----- sysctl

  predicate SysctlIs(k: State, s: SysctlSpec) {
    s.key in k.sysctls && k.sysctls[s.key] == s.value
  }

  /** Read; if it differs write to /proc, else with sysctl -w, else accept a value that is right after all. */
  ghost function SysctlStep(k: State, f: Faults, s: SysctlSpec): Outcome {
    var set_ := k.(sysctls := k.sysctls[s.key := s.value]);
    if !f(CatSysctl(s.key)) && SysctlIs(k, s) then Outcome(k, 0, true)
    else if !f(EchoSysctl(s.key)) || !f(WriteSysctl(s.key)) then Outcome(set_, 1, true)
    else Outcome(k, 0, !f(CatSysctlAgain(s.key)) && SysctlIs(k, s))
  }

  ghost function SysctlSteps(k: State, f: Faults, specs: seq<SysctlSpec>): Outcome
    decreases |specs|
  {
    if specs == [] then Outcome(k, 0, true)
    else
      var o := SysctlStep(k, f, specs[0]);
      if !o.ok then o else Plus(o.changes, SysctlSteps(o.k, f, specs[1..]))
  }

  method SysctlReconcile(r: Runner, specs: seq<SysctlSpec>) returns (changes: nat, ok: bool)
    modifies r
    ensures Outcome(r.k, changes, ok) == SysctlSteps(old(r.k), r.w.fails, specs)
  {
    changes, ok := 0, true;
    var f := r.w.fails;
    for i := 0 to |specs|
      invariant ok && Plus(changes, SysctlSteps(r.k, f, specs[i..])) == SysctlSteps(old(r.k), f, specs)
    {
      var s := specs[i];
      assert specs[i..][0] == s && specs[i..][1..] == specs[i + 1..];
      var cur := r.ReadSysctl(CatSysctl(s.key));
      if cur == Some(s.value) {
        continue;
      }
      var written := r.PutSysctl(EchoSysctl(s.key), s.value);
      if !written {
        written := r.PutSysctl(WriteSysctl(s.key), s.value);
        if !written {
          cur := r.ReadSysctl(CatSysctlAgain(s.key));
          if cur == Some(s.value) {
            continue;
          }
          return changes, false;
        }
      }
      changes := changes + 1;
    }
  }

  // ----- nftables

  ghost function NftStep(k: State, f: Faults, spec: NftSpec): Outcome {
    var live := Listed(k, f, IdOf(spec));
    if live.Some? && SemanticMatch(live.value, spec) then Outcome(k, 0, true)
    else
      var (next, ok) := RanScript(k, f, ApplyScript(live.Some?, spec));
      Outcome(next, if ok then 1 else 0, ok)
  }

  /** nftables.Reconcile: nothing if the listing matches, else the whole table anew in one transaction. */
  method NftReconcile(r: Runner, spec: NftSpec) returns (changes: nat, ok: bool)
    modifies r
    ensures Outcome(r.k, changes, ok) == NftStep(old(r.k), r.w.fails, spec)
  {
    changes := 0;
    var live := r.ListTable(IdOf(spec));
    if live.Some? && SemanticMatch(live.value, spec) {
      return 0, true;
    }
    var script := [];
    if live.Some? {
      script := [DeleteTable(IdOf(spec))];
    }
    var table := RenderFullTable(spec);
    script := script + table;
    ok := r.RunScript(script);
    if !ok {
      return changes, false;
    }
    changes := changes + 1;
  }

  /** SwapSetElements: sorts the caller's list in place, then replaces the live set's contents in one transaction. */
  method SwapSetElements(r: Runner, id: TableId, liveName: string, elements: array<string>) returns (changes: nat, ok: bool)
    modifies r, elements
    ensures SortedPerm(old(elements[..]), elements[..], StringLess)
    ensures var swapped := RanScript(old(r.k), r.w.fails, SwapScript(id, liveName, elements[..]));
            r.k == swapped.0 && ok == swapped.1 && changes == if ok then 1 else 0
  {
    StringOrder();
    SortSlice(elements, StringLess);
    var script := [FlushSet(id, liveName)];
    var batched := WriteBatchedElements(id, liveName, elements[..]);
    script := script + batched;
    ok := r.RunScript(script);
    changes := if ok then 1 else 0;
  }

  ghost function SwapScript(id: TableId, liveName: string, elements: seq<string>): seq<Command> {
    [FlushSet(id, liveName)] + AddBatches(id, liveName, Batches(elements))
  }

  lemma PermElements(a: seq<string>, b: seq<string>)
    requires AllElements(a) && multiset(a) == multiset(b)
    ensures AllElements(b) && ElementSet(a) == ElementSet(b)
  {
    hide ElementOf;
    forall x ensures x in a <==> x in b {
      assert x in a <==> x in multiset(a);
      assert x in b <==> x in multiset(b);
    }
    forall i | 0 <= i < |b| ensures ElementOf(b[i]).Some? {
      assert b[i] in a;
    }
    ElementsMore(a, b);
    ElementsMore(b, a);
  }

  lemma ElementsMore(a: seq<string>, b: seq<string>)
    requires AllElements(a) && AllElements(b) && forall x :: x in a ==> x in b
    ensures ElementSet(a) <= ElementSet(b)
  {
    hide ElementOf;
    forall p | p in ElementSet(a) ensures p in ElementSet(b) {
      var i :| 0 <= i < |a| && ElementOf(a[i]).value == p;
      assert a[i] in b;
      var j :| 0 <= j < |b| && b[j] == a[i];
      assert ElementOf(b[j]).value == p;
    }
  }

  lemma SwapOnTable(t: Table, id: TableId, s: string, elems: seq<string>)
    requires s in t.sets && AllElements(elems)
    ensures ExecAllIn(t, SwapScript(id, s, elems))
         == if Apart(ElementSet(elems)) then Some(t.(sets := t.sets[s := SetDecl(t.sets[s].typ, ElementSet(elems))]))
            else None
    ensures OnTable(SwapScript(id, s, elems), id)
  {
    BatchesExact(elems);
    BatchesOn(id, s, Batches(elems));
    MaskedSetEmpty();
    hide AllElements, ElementSet, AddBatches, Apart;
    var flushed := t.(sets := t.sets[s := t.sets[s].(elems := {})]);
    ExecFirst(t, FlushSet(id, s), AddBatches(id, s, Batches(elems)));
    ReplayBatches(flushed, id, s, Batches(elems));
    assert {} + ElementSet(elems) == ElementSet(elems);
    assert WithElements(flushed, s, ElementSet(elems)).sets == t.sets[s := SetDecl(t.sets[s].typ, ElementSet(elems))];
    NoBatchesNoElements(Batches(elems), {});
  }

  /** Whatever the set held before, after the swap it holds exactly the given elements, and nothing else changed; or
      the elements overlap, and nothing changed at all. */
  lemma SwapReaches(rs: Ruleset, id: TableId, s: string, given: seq<string>, sorted: seq<string>)
    requires id in rs && s in rs[id].sets && AllElements(given) && multiset(given) == multiset(sorted)
    ensures ExecAll(rs, SwapScript(id, s, sorted))
         == if Apart(ElementSet(given))
            then Some(rs[id := rs[id].(sets := rs[id].sets[s := SetDecl(rs[id].sets[s].typ, ElementSet(given))])])
            else None
  {
    PermElements(given, sorted);
    SwapOnTable(rs[id], id, s, sorted);
    hide AllElements, ElementSet, SwapScript, ExecAllIn, ExecAll, Apart;
    ExecAllLocal(rs, id, SwapScript(id, s, sorted));
  }

  // ----- WireGuard, by its effect on the link

  ghost function WgStep(k: State, w: World, spec: WireGuardSpec): Outcome {
    if !spec.managed then Outcome(k, 0, true)
    else
      var (next, ok) := LinkSetUp(k, w.fails, spec.iface, spec.up);
      Outcome(next, w.wgChanges(spec.iface), ok)
  }

  method WireguardReconcile(r: Runner, spec: WireGuardSpec) returns (changes: nat, ok: bool)
    modifies r
    ensures Outcome(r.k, changes, ok) == WgStep(old(r.k), r.w, spec)
  {
    if !spec.managed {
      return 0, true;
    }
    ok := r.SetupLink(spec.iface, spec.up);
    changes := r.w.wgChanges(spec.iface);
  }

  /** What bringing up or taking down an interface means: the link is there exactly if it is to be up, one taken down
      loses its routes from every table, and no other link, route or part of the state changes; an interface that is not
      managed is left alone, and an error at most leaves up a link that was to come up. */
  lemma WgEffect(k: State, w: World, spec: WireGuardSpec)
    ensures var o := WgStep(k, w, spec);
            && o.k == k.(links := o.k.links, routes := o.k.routes)
            && (!spec.managed ==> o == Outcome(k, 0, true))
            && (spec.managed ==> o.changes == w.wgChanges(spec.iface))
            && (!o.ok ==> o.k == k || (spec.up && o.k == LinkBack(k, spec.iface)))
            && (o.ok && spec.managed ==> (spec.iface in o.k.links <==> spec.up))
            && (forall n :: n != spec.iface ==> (n in o.k.links <==> n in k.links))
    ensures forall t, r :: OnlyTaken(k, w, spec, t, r)
  {
    LostLinks(k, spec.iface);
    forall t, r ensures OnlyTaken(k, w, spec, t, r) {
      WgRoute(k, w, spec, t, r);
    }
    hide RoutesIn, LinkLost, OnlyTaken;
  }

  /** A route stays unless its interface is successfully taken down. */
  ghost predicate OnlyTaken(k: State, w: World, spec: WireGuardSpec, t: int, r: Route) {
    r in RoutesIn(WgStep(k, w, spec).k, t) <==> r in RoutesIn(k, t) && !(WgStep(k, w, spec).ok && TakesDown(spec, r))
  }

  /** The routes of an interface that is to be taken down. */
  ghost predicate TakesDown(spec: WireGuardSpec, r: Route) {
    spec.managed && !spec.up && r.hop == Dev(spec.iface)
  }

  lemma WgRoute(k: State, w: World, spec: WireGuardSpec, t: int, r: Route)
    ensures OnlyTaken(k, w, spec, t, r)
  {
    LostRoute(k, spec.iface, t, r);
    hide RoutesIn, LinkLost, LinkBack;
  }

  lemma LostRoute(k: State, name: string, t: int, r: Route)
    ensures r in RoutesIn(LinkLost(k, name), t) <==> r in RoutesIn(k, t) && r.hop != Dev(name)
    ensures RoutesIn(LinkBack(k, name), t) == RoutesIn(k, t)
  {
    InWithoutDev(RoutesIn(k, t), name, r);
    assert RoutesIn(LinkLost(k, name), t) == WithoutDev(RoutesIn(k, t), name);
  }

  lemma LostLinks(k: State, name: string)
    ensures var o := LinkLost(k, name); o == k.(links := k.links - {name}, routes := o.routes)
  {
  }

  // ----- routing

  ghost function RuleStep(k: State, f: Faults, want: IPRuleSpec): Outcome {
    if RuleShown(RulesShown(k, f, want.priority), want) then Outcome(k, 0, true)
    else
      var (next, ok) := RuleAdded(RuleDeleted(k, f, want.priority), f, FwRule(want.priority, want.mark, want.table));
      Outcome(next, if ok then 1 else 0, ok)
  }

  ghost function RuleSteps(k: State, f: Faults, rules: seq<IPRuleSpec>): Outcome
    decreases |rules|
  {
    if rules == [] then Outcome(k, 0, true)
    else
      var o := RuleStep(k, f, rules[0]);
      if !o.ok then o else Plus(o.changes, RuleSteps(o.k, f, rules[1..]))
  }

  /** The wanted routes of one table. */
  datatype Group = Group(table: int, want: seq<RouteSpec>)

  /** byTable[rt.Table] = append(byTable[rt.Table], rt), tables in order of first use. */
  function AddToGroups(groups: seq<Group>, rt: RouteSpec): seq<Group> {
    if groups == [] then [Group(rt.table, [rt])]
    else if groups[0].table == rt.table then [groups[0].(want := groups[0].want + [rt])] + groups[1..]
    else [groups[0]] + AddToGroups(groups[1..], rt)
  }

  ghost function GroupAll(groups: seq<Group>, routes: seq<RouteSpec>): seq<Group>
    decreases |routes|
  {
    if routes == [] then groups else GroupAll(AddToGroups(groups, routes[0]), routes[1..])
  }

  /** The routes of one table, in order. */
  ghost function OfTable(routes: seq<RouteSpec>, t: int): seq<RouteSpec> {
    if routes == [] then []
    else
      var last := routes[|routes| - 1];
      OfTable(routes[..|routes| - 1], t) + (if last.table == t then [last] else [])
  }

  /** The groups are those of these routes: different tables, each with all its routes in order, and no table missing. */
  ghost predicate Grouped(groups: seq<Group>, routes: seq<RouteSpec>) {
    && (forall i, j :: 0 <= i < j < |groups| ==> groups[i].table != groups[j].table)
    && (forall i :: 0 <= i < |groups| ==> groups[i].want == OfTable(routes, groups[i].table))
    && (forall rt :: rt in routes ==> exists i :: 0 <= i < |groups| && groups[i].table == rt.table)
  }

  lemma {:induction false} AddedToGroups(groups: seq<Group>, rt: RouteSpec, k: nat)
    requires k <= |groups| && (k < |groups| ==> groups[k].table == rt.table)
    requires forall i :: 0 <= i < k ==> groups[i].table != rt.table
    ensures AddToGroups(groups, rt)
         == if k < |groups| then groups[k := Group(rt.table, groups[k].want + [rt])] else groups + [Group(rt.table, [rt])]
  {
    if k > 0 {
      AddedToGroups(groups[1..], rt, k - 1);
    }
  }

  lemma GroupedMore(groups: seq<Group>, routes: seq<RouteSpec>, rt: RouteSpec)
    requires Grouped(groups, routes)
    ensures Grouped(AddToGroups(groups, rt), routes + [rt])
  {
    if k :| 0 <= k < |groups| && groups[k].table == rt.table {
      AddedToGroups(groups, rt, k);
      hide *;
      GrownGroup(groups, routes, rt, k);
    } else {
      AddedToGroups(groups, rt, |groups|);
      hide *;
      NewGroup(groups, routes, rt);
    }
  }

  lemma GrownGroup(groups: seq<Group>, routes: seq<RouteSpec>, rt: RouteSpec, k: nat)
    requires Grouped(groups, routes) && k < |groups| && groups[k].table == rt.table
    ensures Grouped(groups[k := Group(rt.table, groups[k].want + [rt])], routes + [rt])
  {
    var next := groups[k := Group(rt.table, groups[k].want + [rt])];
    forall i | 0 <= i < |next| ensures next[i].table == groups[i].table && next[i].want == OfTable(routes + [rt], next[i].table) {
      OfTableMore(routes, rt, groups[i].table);
    }
    hide OfTable;
    forall r | r in routes + [rt] ensures exists i :: 0 <= i < |next| && next[i].table == r.table {
      var i := k;
      if r in routes {
        i :| 0 <= i < |groups| && groups[i].table == r.table;
      }
      assert next[i].table == r.table;
    }
  }

  lemma NewGroup(groups: seq<Group>, routes: seq<RouteSpec>, rt: RouteSpec)
    requires Grouped(groups, routes) && forall i :: 0 <= i < |groups| ==> groups[i].table != rt.table
    ensures Grouped(groups + [Group(rt.table, [rt])], routes + [rt])
  {
    var next := groups + [Group(rt.table, [rt])];
    NoneOfTable(routes, rt.table);
    forall i | 0 <= i < |next| ensures next[i].want == OfTable(routes + [rt], next[i].table) {
      OfTableMore(routes, rt, next[i].table);
      assert i < |groups| ==> next[i] == groups[i];
    }
    hide OfTable;
    forall r | r in routes + [rt] ensures exists i :: 0 <= i < |next| && next[i].table == r.table {
      var i := |groups|;
      if r in routes {
        i :| 0 <= i < |groups| && groups[i].table == r.table;
      }
      assert next[i].table == r.table;
    }
  }

  lemma OfTableMore(routes: seq<RouteSpec>, rt: RouteSpec, t: int)
    ensures OfTable(routes + [rt], t) == OfTable(routes, t) + if rt.table == t then [rt] else []
  {
    var more := routes + [rt];
    assert more[..|more| - 1] == routes && more[|more| - 1] == rt;
  }

  lemma {:induction false} NoneOfTable(routes: seq<RouteSpec>, t: int)
    requires forall rt :: rt in routes ==> rt.table != t
    ensures OfTable(routes, t) == []
  {
    if routes != [] {
      NoneOfTable(routes[..|routes| - 1], t);
    }
  }

  lemma {:induction false} GroupAllFrom(groups: seq<Group>, done: seq<RouteSpec>, routes: seq<RouteSpec>)
    requires Grouped(groups, done)
    ensures Grouped(GroupAll(groups, routes), done + routes)
    decreases |routes|
  {
    hide Grouped, AddToGroups;
    if routes == [] {
      assert done + routes == done;
    } else {
      GroupedMore(groups, done, routes[0]);
      GroupAllFrom(AddToGroups(groups, routes[0]), done + [routes[0]], routes[1..]);
      assert done + [routes[0]] + routes[1..] == done + routes;
    }
  }

  /** Grouping by table, for every list of routes: each table once, with all its routes in their order. */
  lemma GroupsExact(routes: seq<RouteSpec>)
    ensures Grouped(GroupAll([], routes), routes)
  {
    GroupAllFrom([], [], routes);
    assert [] + routes == routes;
  }

  /** addRoute: the route that the arguments of "ip route replace" name. */
  function RouteOf(rt: RouteSpec): Route {
    Route(if rt.blackhole then Blackhole else Dev(rt.device), if rt.metric > 0 then rt.metric else 0)
  }

  /** The route that is added is the one whose key is compared, unless the metric is negative, which is left out. */
  lemma RouteOfKey(rt: RouteSpec)
    ensures rt.metric >= 0 ==> KeyOfRoute(RouteOf(rt)) == RouteKey(rt)
    ensures rt.metric < 0 ==> RouteOf(rt) == RouteOf(rt.(metric := 0))
  {
  }

  ghost function RouteAdds(k: State, f: Faults, want: seq<RouteSpec>): (State, bool)
    decreases |want|
  {
    if want == [] then (k, true)
    else
      var (next, ok) := RouteReplaced(k, f, want[0].table, RouteOf(want[0]));
      if ok then RouteAdds(next, f, want[1..]) else (next, false)
  }

  ghost function TableStep(k: State, f: Faults, g: Group): Outcome {
    if TableRoutesMatchSpec(RoutesShown(k, f, g.table), g.want) then Outcome(k, 0, true)
    else
      var (next, ok) := RouteAdds(RoutesFlushed(k, f, g.table), f, g.want);
      Outcome(next, if ok then 1 else 0, ok)
  }

  ghost function TableSteps(k: State, f: Faults, groups: seq<Group>): Outcome
    decreases |groups|
  {
    if groups == [] then Outcome(k, 0, true)
    else
      var o := TableStep(k, f, groups[0]);
      if !o.ok then o else Plus(o.changes, TableSteps(o.k, f, groups[1..]))
  }

  ghost function RoutingSteps(k: State, f: Faults, rules: seq<IPRuleSpec>, routes: seq<RouteSpec>): Outcome {
    var o := RuleSteps(k, f, rules);
    if !o.ok then o else Plus(o.changes, TableSteps(o.k, f, GroupAll([], routes)))
  }

  /** routing.Reconcile: rules first, then each table whose listing differs is flushed and filled. */
  method RoutingReconcile(r: Runner, rules: seq<IPRuleSpec>, routes: seq<RouteSpec>) returns (changes: nat, ok: bool)
    modifies r
    ensures Outcome(r.k, changes, ok) == RoutingSteps(old(r.k), r.w.fails, rules, routes)
  {
    var f := r.w.fails;
    changes, ok := ReconcileRules(r, rules);
    if !ok {
      return;
    }
    var byTable: seq<Group> := [];
    for i := 0 to |routes|
      invariant GroupAll(byTable, routes[i..]) == GroupAll([], routes)
    {
      assert routes[i..][0] == routes[i] && routes[i..][1..] == routes[i + 1..];
      byTable := AddToGroups(byTable, routes[i]);
    }
    ghost var k1 := r.k;
    ghost var counted := changes;
    for i := 0 to |byTable|
      invariant ok && changes >= counted
      invariant Plus(changes - counted, TableSteps(r.k, f, byTable[i..])) == TableSteps(k1, f, byTable)
    {
      assert byTable[i..][0] == byTable[i] && byTable[i..][1..] == byTable[i + 1..];
      var n, done := ReconcileTable(r, byTable[i]);
      changes := changes + n;
      if !done {
        return changes, false;
      }
    }
  }

  method ReconcileRules(r: Runner, rules: seq<IPRuleSpec>) returns (changes: nat, ok: bool)
    modifies r
    ensures Outcome(r.k, changes, ok) == RuleSteps(old(r.k), r.w.fails, rules)
  {
    changes, ok := 0, true;
    var f := r.w.fails;
    for i := 0 to |rules|
      invariant ok && Plus(changes, RuleSteps(r.k, f, rules[i..])) == RuleSteps(old(r.k), f, rules)
    {
      var rule := rules[i];
      assert rules[i..][0] == rule && rules[i..][1..] == rules[i + 1..];
      var out := r.ShowRules(rule.priority);
      if RuleShown(out, rule) {
        continue;
      }
      r.DelRule(rule.priority);
      var added := r.AddRule(FwRule(rule.priority, rule.mark, rule.table));
      if !added {
        return changes, false;
      }
      changes := changes + 1;
    }
  }

  method ReconcileTable(r: Runner, g: Group) returns (changes: nat, ok: bool)
    modifies r
    ensures Outcome(r.k, changes, ok) == TableStep(old(r.k), r.w.fails, g)
  {
    var f := r.w.fails;
    var out := r.ShowRoutes(g.table);
    var same := TableRoutesMatch(out, g.want);
    if same {
      return 0, true;
    }
    r.FlushRoutes(g.table);
    ghost var k1 := r.k;
    for i := 0 to |g.want|
      invariant RouteAdds(r.k, f, g.want[i..]) == RouteAdds(k1, f, g.want)
    {
      assert g.want[i..][0] == g.want[i] && g.want[i..][1..] == g.want[i + 1..];
      var done := r.ReplaceRoute(g.want[i].table, RouteOf(g.want[i]));
      if !done {
        return 0, false;
      }
    }
    return 1, true;
  }

  // ----- the pipeline

  datatype Stage = Done | PolicyStage | SysctlStage | NftStage | WireGuardStage | WireGuardClientsStage | RoutingStage

  /** The state, the total of changes, and the stage that failed. */
  datatype Applied = Applied(k: State, changes: nat, stage: Stage)

  ghost function ApplyState(k: State, w: World, st: DesiredKernelState): Applied {
    var a := SysctlSteps(k, w.fails, st.sysctls);
    if !a.ok then Applied(a.k, a.changes, SysctlStage) else
    var b := NftStep(a.k, w.fails, st.nft);
    var n := a.changes + b.changes;
    if !b.ok then Applied(b.k, n, NftStage) else
    var c := WgStep(b.k, w, st.wireGuard);
    var n := n + c.changes;
    if !c.ok then Applied(c.k, n, WireGuardStage) else
    var d := WgStep(c.k, w, st.wireGuardClients);
    var n := n + d.changes;
    if !d.ok then Applied(d.k, n, WireGuardClientsStage) else
    var e := RoutingSteps(d.k, w.fails, st.ipRules, st.routes);
    Applied(e.k, n + e.changes, if e.ok then Done else RoutingStage)
  }

  ghost function ApplyPolicy(k: State, w: World, p: Policy): Applied {
    match Compile(p)
    case Invalid(_) => Applied(k, 0, PolicyStage)
    case Compiled(st) => ApplyState(k, w, st)
  }

  /** apply.Reconcile: sysctl, nft, WireGuard, then rules and routes; the first failure ends it. */
  method ApplyReconcile(r: Runner, p: Policy) returns (total: nat, stage: Stage)
    modifies r
    ensures Applied(r.k, total, stage) == ApplyPolicy(old(r.k), r.w, p)
  {
    hide SysctlSteps, NftStep, WgStep, RoutingSteps, StateOf;
    total := 0;
    var compiled := Compile(p);
    if compiled.Invalid? {
      return 0, PolicyStage;
    }
    var st := compiled.state;
    var c, ok := SysctlReconcile(r, st.sysctls);
    total := total + c;
    if !ok {
      return total, SysctlStage;
    }
    c, ok := NftReconcile(r, st.nft);
    total := total + c;
    if !ok {
      return total, NftStage;
    }
    c, ok := WireguardReconcile(r, st.wireGuard);
    total := total + c;
    if !ok {
      return total, WireGuardStage;
    }
    c, ok := WireguardReconcile(r, st.wireGuardClients);
    total := total + c;
    if !ok {
      return total, WireGuardClientsStage;
    }
    c, ok := RoutingReconcile(r, st.ipRules, st.routes);
    total := total + c;
    return total, if ok then Done else RoutingStage;
  }
}
