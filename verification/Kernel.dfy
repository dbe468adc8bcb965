/** The mutable kernel and the commands that are run on it. Every call may fail, as an oracle says;
  that and the effects below are the model's step relation and are not proved of a real kernel. */
module Kernel {
  import opened Wrappers
  import opened Policy
  import opened NftKernel
  import opened NftLive
  import opened Routing
  import opened RuleListing

  datatype State = State(
    sysctls: map<string, string>, nft: Ruleset, rules: seq<FwRule>, routes: map<int, seq<Route>>, links: set<string>)

  /** The calls of one apply. */
  datatype Call =
    | CatSysctl(key: string)
    | EchoSysctl(key: string)
    | WriteSysctl(key: string)
    | CatSysctlAgain(key: string)
    | NftList
    | NftScript
    | WireGuardSetup(iface: string)
    | WireGuardRoutes(iface: string)
    | RuleShow(priority: int)
    | RuleDel(priority: int)
    | RuleAdd(priority: int)
    | RouteShow(table: int)
    | RouteFlush(table: int)
    | RouteReplace(table: int, metric: nat)

  type Faults = Call -> bool

  /** Which calls fail, and how many changes WireGuard reports for an interface. */
  datatype World = World(fails: Faults, wgChanges: string -> nat)

  function RoutesIn(k: State, table: int): seq<Route> {
    if table in k.routes then k.routes[table] else []
  }

  // ----- sysctl

  function SysctlRead(k: State, f: Faults, c: Call): Option<string>
    requires c.CatSysctl? || c.CatSysctlAgain?
  {
    if f(c) || c.key !in k.sysctls then None else Some(k.sysctls[c.key])
  }

  function SysctlPut(k: State, f: Faults, c: Call, value: string): (State, bool)
    requires c.EchoSysctl? || c.WriteSysctl?
  {
    if f(c) then (k, false) else (k.(sysctls := k.sysctls[c.key := value]), true)
  }

  // ----- nft

  function Listed(k: State, f: Faults, id: TableId): Option<LiveNft> {
    if f(NftList) || id !in k.nft then None else Some(Listing(k.nft[id]))
  }

  /** nft -f is one transaction: a script with an error changes nothing. */
  function RanScript(k: State, f: Faults, script: seq<Command>): (State, bool) {
    if f(NftScript) then (k, false)
    else
      match ExecAll(k.nft, script)
      case Some(rs) => (k.(nft := rs), true)
      case None => (k, false)
  }

  // ----- ip rule

  function RulesShown(k: State, f: Faults, priority: int): string {
    if f(RuleShow(priority)) then "" else RulesText(k.rules)
  }

  function RemoveFirst(rules: seq<FwRule>, priority: int): seq<FwRule> {
    if rules == [] then []
    else if rules[0].priority == priority then rules[1..]
    else [rules[0]] + RemoveFirst(rules[1..], priority)
  }

  /** Rules are kept in order of priority. */
  function InsertRule(rules: seq<FwRule>, r: FwRule): seq<FwRule> {
    if rules == [] || r.priority < rules[0].priority then [r] + rules else [rules[0]] + InsertRule(rules[1..], r)
  }

  function RuleDeleted(k: State, f: Faults, priority: int): State {
    if f(RuleDel(priority)) then k else k.(rules := RemoveFirst(k.rules, priority))
  }

  /** Adding a rule that is there is an error. */
  function RuleAdded(k: State, f: Faults, r: FwRule): (State, bool) {
    if f(RuleAdd(r.priority)) || r in k.rules then (k, false) else (k.(rules := InsertRule(k.rules, r)), true)
  }

  // ----- ip route

  function RoutesShown(k: State, f: Faults, table: int): string {
    if f(RouteShow(table)) then "" else RoutesText(RoutesIn(k, table))
  }

  function RoutesFlushed(k: State, f: Faults, table: int): State {
    if f(RouteFlush(table)) then k else k.(routes := k.routes[table := []])
  }

  /** A device route needs the device to be there and up. */
  function RouteReplaced(k: State, f: Faults, table: int, r: Route): (State, bool) {
    if f(RouteReplace(table, r.metric)) || (r.hop.Dev? && r.hop.name !in k.links) then (k, false)
    else (k.(routes := k.routes[table := SetRoute(RoutesIn(k, table), r)]), true)
  }

  // ----- links

  /** A lost link takes its routes with it. */
  function LinkLost(k: State, name: string): State {
    k.(links := k.links - {name}, routes := map t | t in k.routes :: WithoutDev(k.routes[t], name))
  }

  function LinkBack(k: State, name: string): State {
    k.(links := k.links + {name})
  }

  /** An interface name with white space is refused. Once the link is up, adding the routes of the peer can still fail. */
  function LinkSetUp(k: State, f: Faults, name: string, up: bool): (State, bool) {
    if f(WireGuardSetup(name)) || !ValidName(name) then (k, false)
    else if up then (LinkBack(k, name), !f(WireGuardRoutes(name)))
    else (LinkLost(k, name), true)
  }

  // ----- looking up a packet's way out

  datatype Fate = ToDevice(name: string) | Blackholed | MainTable | NotSent

  /** The rules in order; a table without a route lets the next rule decide. */
  function LookupRules(k: State, rules: seq<FwRule>, mark: Mark): Fate {
    if rules == [] then MainTable
    else if rules[0].mark != mark then LookupRules(k, rules[1..], mark)
    else
      match Best(RoutesIn(k, rules[0].table))
      case None => LookupRules(k, rules[1..], mark)
      case Some(r) => match r.hop case Blackhole => Blackholed case Dev(name) => ToDevice(name)
  }

  function Resolve(k: State, mark: Mark): Fate {
    LookupRules(k, k.rules, mark)
  }

  /** A forwarded packet: the owned prerouting chain, then policy routing with the mark it got. */
  ghost function FateOf(k: State, id: TableId, pkt: Packet): Fate {
    match (if id in k.nft then RunHook(k.nft[id], "prerouting", pkt) else Accept(pkt.mark))
    case Dropped => NotSent
    case Accept(mark) => Resolve(k, mark)
  }

  // ----- the runner

  /** Executes commands on the kernel it holds. */
  class Runner {
    var k: State
    const w: World

    constructor (k: State, w: World)
      ensures this.k == k && this.w == w
    {
      this.k := k;
      this.w := w;
    }

    method ReadSysctl(c: Call) returns (value: Option<string>)
      requires c.CatSysctl? || c.CatSysctlAgain?
      ensures value == SysctlRead(k, w.fails, c)
    {
      value := SysctlRead(k, w.fails, c);
    }

    method PutSysctl(c: Call, value: string) returns (ok: bool)
      requires c.EchoSysctl? || c.WriteSysctl?
      modifies this
      ensures (k, ok) == SysctlPut(old(k), w.fails, c, value)
    {
      var r := SysctlPut(k, w.fails, c, value);
      k, ok := r.0, r.1;
    }

    method ListTable(id: TableId) returns (live: Option<LiveNft>)
      ensures live == Listed(k, w.fails, id)
    {
      live := Listed(k, w.fails, id);
    }

    method RunScript(script: seq<Command>) returns (ok: bool)
      modifies this
      ensures (k, ok) == RanScript(old(k), w.fails, script)
    {
      var r := RanScript(k, w.fails, script);
      k, ok := r.0, r.1;
    }

    /** Everything "ip link" and "wg" do to bring a managed interface up or down. */
    method SetupLink(name: string, up: bool) returns (ok: bool)
      modifies this
      ensures (k, ok) == LinkSetUp(old(k), w.fails, name, up)
    {
      var s := LinkSetUp(k, w.fails, name, up);
      k, ok := s.0, s.1;
    }

    method ShowRules(priority: int) returns (out: string)
      ensures out == RulesShown(k, w.fails, priority)
    {
      out := RulesShown(k, w.fails, priority);
    }

    method DelRule(priority: int)
      modifies this
      ensures k == RuleDeleted(old(k), w.fails, priority)
    {
      k := RuleDeleted(k, w.fails, priority);
    }

    method AddRule(r: FwRule) returns (ok: bool)
      modifies this
      ensures (k, ok) == RuleAdded(old(k), w.fails, r)
    {
      var s := RuleAdded(k, w.fails, r);
      k, ok := s.0, s.1;
    }

    method ShowRoutes(table: int) returns (out: string)
      ensures out == RoutesShown(k, w.fails, table)
    {
      out := RoutesShown(k, w.fails, table);
    }

    method FlushRoutes(table: int)
      modifies this
      ensures k == RoutesFlushed(old(k), w.fails, table)
    {
      k := RoutesFlushed(k, w.fails, table);
    }

    method ReplaceRoute(table: int, r: Route) returns (ok: bool)
      modifies this
      ensures (k, ok) == RouteReplaced(old(k), w.fails, table, r)
    {
      var s := RouteReplaced(k, w.fails, table, r);
      k, ok := s.0, s.1;
    }
  }
}
