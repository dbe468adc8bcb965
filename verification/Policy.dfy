/** The policy, the declarative kernel state, and the compiler between them. */
module Policy {
  import opened Wrappers
  import opened Ipv4
  import opened CidrText

  // ----- addresses and prefixes of either family

  /** An IPv6 address or prefix is represented by its printed text. */
  type Text6 = s: string | ':' in s witness ":"

  datatype Ip = NoIp | Ip4(a: Addr) | Ip6(text: Text6)

  datatype Net = NoNet | Net4(p: Prefix) | Net6(text: Text6)

  function IpString(ip: Ip): string {
    match ip
    case NoIp => "invalid IP"
    case Ip4(a) => AddrString(a)
    case Ip6(text) => text
  }

  function NetString(n: Net): string {
    match n
    case NoNet => "invalid Prefix"
    case Net4(p) => PrefixString(p)
    case Net6(text) => text
  }

  /** An address lies in one of the IPv4 prefixes of a list. */
  ghost predicate NetsCover(nets: seq<Net>, a: Addr) {
    exists i :: 0 <= i < |nets| && nets[i].Net4? && In(a, nets[i].p)
  }

  ghost predicate AllNet4(nets: seq<Net>) {
    forall i :: 0 <= i < |nets| ==> nets[i].Net4?
  }

  // ----- policy

  type Mark = m: int | 0 <= m < 0x1_0000_0000

  /** allowedIPs is None for a nil slice, which reflect.DeepEqual tells from an empty one. */
  datatype WireGuardPeer = WireGuardPeer(
    publicKey: string, endpoint: string, allowedIPs: Option<seq<Net>>, persistentKeepalive: int)

  datatype WireGuardConfig = WireGuardConfig(
    privateKey: string, listenPort: int, address: Net, peer: WireGuardPeer)

  datatype Policy = Policy(
    directPrefixes: seq<Net>, tunnelInterface: string, tunnelEndpoint: Ip, lans: seq<Net>,
    mark: Mark, table: int, rulePriority: int, tunnelUp: bool,
    wireGuard: WireGuardConfig, inboundWireGuard: WireGuardConfig)

  const OWNED_NFT_TABLE := "gotun"
  const OWNED_NFT_FAMILY := "inet"
  const DEFAULT_MARK: Mark := 1
  const DEFAULT_TABLE_ID := 100
  const DEFAULT_RULE_PRIORITY := 100
  const DEFAULT_TUNNEL_IFACE := "wg-exit"
  const DEFAULT_CLIENTS_IFACE := "wg-clients"
  const RU_NETS := "ru_nets"
  const HOME_NETS := "home_nets"
  const TUNNEL_ROUTE_METRIC := 10
  const FAIL_CLOSED_ROUTE_METRIC := 100

  // ----- declarative kernel state

  datatype SysctlSpec = SysctlSpec(key: string, value: string)

  datatype NftSetSpec = NftSetSpec(name: string, typ: string, flags: seq<string>, elements: seq<Net>)

  datatype NftRuleSpec = NftRuleSpec(
    description: string, excludePrefixes: seq<Net>, excludeAddrs: seq<Ip>, directSet: string, mark: Mark,
    dropIPv6: bool, iifName: string, dropDstSet: string)

  datatype NftChainSpec = NftChainSpec(
    name: string, typ: string, hook: string, priority: int, policy: string, rules: seq<NftRuleSpec>)

  datatype NftSpec = NftSpec(family: string, table: string, sets: seq<NftSetSpec>, chains: seq<NftChainSpec>)

  datatype IPRuleSpec = IPRuleSpec(priority: int, mark: Mark, table: int)

  datatype RouteSpec = RouteSpec(table: int, destination: Net, blackhole: bool, device: string, metric: int)

  datatype WireGuardSpec = WireGuardSpec(
    iface: string, privateKey: string, listenPort: int, address: Net, peer: WireGuardPeer, managed: bool, up: bool)

  datatype DesiredKernelState = DesiredKernelState(
    sysctls: seq<SysctlSpec>, nft: NftSpec, ipRules: seq<IPRuleSpec>, routes: seq<RouteSpec>,
    wireGuard: WireGuardSpec, wireGuardClients: WireGuardSpec)

  // ----- compiling

  datatype PolicyError = EndpointRequired | BadDirectPrefix(net: Net) | LansRequired

  datatype CompileResult = Compiled(state: DesiredKernelState) | Invalid(error: PolicyError)

  /** The first direct prefix that is not a valid IPv4 one. */
  function FirstBad(nets: seq<Net>): Option<Net> {
    if nets == [] then None else if !nets[0].Net4? then Some(nets[0]) else FirstBad(nets[1..])
  }

  predicate InboundManaged(p: Policy) {
    p.inboundWireGuard.privateKey != ""
  }

  function Validate(p: Policy): Option<PolicyError> {
    if p.tunnelEndpoint == NoIp then Some(EndpointRequired)
    else
      match FirstBad(p.directPrefixes)
      case Some(bad) => Some(BadDirectPrefix(bad))
      case None => if InboundManaged(p) && |p.lans| == 0 then Some(LansRequired) else None
  }

  function MarkOf(p: Policy): Mark {
    if p.mark == 0 then DEFAULT_MARK else p.mark
  }

  function TableOf(p: Policy): int {
    if p.table == 0 then DEFAULT_TABLE_ID else p.table
  }

  function PriorityOf(p: Policy): int {
    if p.rulePriority == 0 then DEFAULT_RULE_PRIORITY else p.rulePriority
  }

  function IfaceOf(p: Policy): string {
    if p.tunnelInterface == "" then DEFAULT_TUNNEL_IFACE else p.tunnelInterface
  }

  const DEFAULT_DESTINATION: Net := Net4(Prefix(0, 0))

  /** routesForTunnel: always a terminal blackhole, and a preferred device route while the tunnel is up. */
  function RoutesForTunnel(table: int, iface: string, tunnelUp: bool): seq<RouteSpec> {
    var bh := RouteSpec(table, DEFAULT_DESTINATION, true, "", FAIL_CLOSED_ROUTE_METRIC);
    if !tunnelUp then [bh] else [RouteSpec(table, DEFAULT_DESTINATION, false, iface, TUNNEL_ROUTE_METRIC), bh]
  }

  function DropIPv6Rule(): NftRuleSpec {
    NftRuleSpec("drop-ipv6", [], [], "", 0, true, "", "")
  }

  function MarkRule(p: Policy): NftRuleSpec {
    var excludeAddrs := if p.tunnelEndpoint != NoIp then [p.tunnelEndpoint] else [];
    NftRuleSpec("mark-non-direct", p.lans, excludeAddrs, RU_NETS, MarkOf(p), false, "", "")
  }

  function IsolateRule(): NftRuleSpec {
    NftRuleSpec("isolate-inbound-from-home", [], [], "", 0, false, DEFAULT_CLIENTS_IFACE, HOME_NETS)
  }

  function RuNetsSet(p: Policy): NftSetSpec {
    NftSetSpec(RU_NETS, "ipv4_addr", ["interval"], p.directPrefixes)
  }

  function HomeNetsSet(p: Policy): NftSetSpec {
    NftSetSpec(HOME_NETS, "ipv4_addr", ["interval"], p.lans)
  }

  function PreroutingChain(p: Policy): NftChainSpec {
    NftChainSpec("prerouting", "filter", "prerouting", -150, "accept", [DropIPv6Rule(), MarkRule(p)])
  }

  function ForwardChain(): NftChainSpec {
    NftChainSpec("forward", "filter", "forward", 0, "accept", [IsolateRule()])
  }

  function NftOf(p: Policy): NftSpec {
    NftSpec(OWNED_NFT_FAMILY, OWNED_NFT_TABLE,
      [RuNetsSet(p)] + (if InboundManaged(p) then [HomeNetsSet(p)] else []),
      [PreroutingChain(p)] + (if InboundManaged(p) then [ForwardChain()] else []))
  }

  function Sysctls(): seq<SysctlSpec> {
    [SysctlSpec("net.ipv4.ip_forward", "1"),
     SysctlSpec("net.ipv6.conf.all.disable_ipv6", "1"),
     SysctlSpec("net.ipv6.conf.default.disable_ipv6", "1")]
  }

  function StateOf(p: Policy): DesiredKernelState {
    var wg, inbound := p.wireGuard, p.inboundWireGuard;
    DesiredKernelState(
      Sysctls(), NftOf(p), [IPRuleSpec(PriorityOf(p), MarkOf(p), TableOf(p))],
      RoutesForTunnel(TableOf(p), IfaceOf(p), p.tunnelUp),
      WireGuardSpec(IfaceOf(p), wg.privateKey, wg.listenPort, wg.address, wg.peer, wg.privateKey != "", p.tunnelUp),
      WireGuardSpec(DEFAULT_CLIENTS_IFACE, inbound.privateKey, inbound.listenPort, inbound.address, inbound.peer,
                    InboundManaged(p), InboundManaged(p)))
  }

  function Compile(p: Policy): CompileResult {
    match Validate(p)
    case Some(error) => Invalid(error)
    case None => Compiled(StateOf(p))
  }

  lemma {:induction false} FirstBadIff(nets: seq<Net>)
    ensures FirstBad(nets) == None <==> AllNet4(nets)
    ensures FirstBad(nets).Some? ==>
              exists i :: 0 <= i < |nets| && nets[i] == FirstBad(nets).value && !nets[i].Net4? && AllNet4(nets[..i])
  {
    if nets != [] && nets[0].Net4? {
      FirstBadIff(nets[1..]);
      if FirstBad(nets[1..]).Some? {
        var i :| 0 <= i < |nets[1..]| && nets[1..][i] == FirstBad(nets[1..]).value && AllNet4(nets[1..][..i]);
        assert nets[i + 1] == nets[1..][i];
        assert nets[..i + 1] == [nets[0]] + nets[1..][..i];
      }
    } else if nets != [] {
      assert nets[..0] == [];
    }
  }

  /** Which policies compile. */
  ghost predicate Sound(p: Policy) {
    p.tunnelEndpoint != NoIp && AllNet4(p.directPrefixes) && (InboundManaged(p) ==> p.lans != [])
  }

  /** Which policies compile, and which error the others give: a missing endpoint goes before the first bad direct prefix,
      and that before missing LANs. */
  lemma CompileIff(p: Policy)
    ensures Compile(p).Compiled? <==> Sound(p)
    ensures Compile(p).Compiled? ==> Compile(p).state == StateOf(p)
    ensures Compile(p) == Invalid(EndpointRequired) <==> p.tunnelEndpoint == NoIp
    ensures forall n :: Compile(p) == Invalid(BadDirectPrefix(n)) <==> p.tunnelEndpoint != NoIp && IsFirstBad(p.directPrefixes, n)
    ensures Compile(p) == Invalid(LansRequired)
       <==> p.tunnelEndpoint != NoIp && AllNet4(p.directPrefixes) && p.inboundWireGuard.privateKey != "" && p.lans == []
  {
    FirstBadIff(p.directPrefixes);
    forall n ensures FirstBad(p.directPrefixes) == Some(n) <==> IsFirstBad(p.directPrefixes, n) {
      if IsFirstBad(p.directPrefixes, n) {
        FirstBadOnce(p.directPrefixes, n);
      }
    }
  }

  /** n is in the list, is not a valid IPv4 prefix, and all before it are. */
  ghost predicate IsFirstBad(nets: seq<Net>, n: Net) {
    exists i :: 0 <= i < |nets| && nets[i] == n && !n.Net4? && forall j :: 0 <= j < i ==> nets[j].Net4?
  }

  lemma FirstBadOnce(nets: seq<Net>, n: Net)
    requires IsFirstBad(nets, n)
    ensures FirstBad(nets) == Some(n)
  {
    FirstBadIff(nets);
    var i :| 0 <= i < |nets| && nets[i] == n && !n.Net4? && forall j :: 0 <= j < i ==> nets[j].Net4?;
    var k :| 0 <= k < |nets| && nets[k] == FirstBad(nets).value && !nets[k].Net4? && AllNet4(nets[..k]);
    assert forall j :: 0 <= j < k ==> nets[..k][j] == nets[j];
  }

  // ----- what is asked of the kernel, in names and numbers

  ghost predicate IsSetSpec(s: NftSetSpec, p: Policy) {
    || s == NftSetSpec("ru_nets", "ipv4_addr", ["interval"], p.directPrefixes)
    || (p.inboundWireGuard.privateKey != "" && s == NftSetSpec("home_nets", "ipv4_addr", ["interval"], p.lans))
  }

  ghost predicate IsChainSpec(c: NftChainSpec, p: Policy) {
    || c == NftChainSpec("prerouting", "filter", "prerouting", -150, "accept",
              [NftRuleSpec("drop-ipv6", [], [], "", 0, true, "", ""),
               NftRuleSpec("mark-non-direct", p.lans, [p.tunnelEndpoint], "ru_nets", if p.mark == 0 then 1 else p.mark, false,
                           "", "")])
    || (p.inboundWireGuard.privateKey != "" &&
        c == NftChainSpec("forward", "filter", "forward", 0, "accept",
               [NftRuleSpec("isolate-inbound-from-home", [], [], "", 0, false, "wg-clients", "home_nets")]))
  }

  ghost predicate IsRouteSpec(r: RouteSpec, p: Policy) {
    var table := if p.table == 0 then 100 else p.table;
    || r == RouteSpec(table, Net4(Prefix(0, 0)), true, "", 100)
    || (p.tunnelUp
        && r == RouteSpec(table, Net4(Prefix(0, 0)), false, if p.tunnelInterface == "" then "wg-exit" else p.tunnelInterface, 10))
  }

  /** The interface has the keys, address and peer of its configuration, and is managed exactly if there is a key. */
  ghost predicate IsWireGuardSpec(s: WireGuardSpec, c: WireGuardConfig, iface: string, up: bool) {
    && s.iface == iface && s.up == up && (s.managed <==> c.privateKey != "")
    && s.privateKey == c.privateKey && s.listenPort == c.listenPort && s.address == c.address && s.peer == c.peer
  }

  /** What is asked of the kernel for a policy that compiles: zero values of the policy stand for the defaults, and only a
      policy with an inbound key has home networks and a forward chain. */
  lemma CompiledState(p: Policy)
    requires Compile(p).Compiled?
    ensures var st := Compile(p).state;
            && st.sysctls == [SysctlSpec("net.ipv4.ip_forward", "1"), SysctlSpec("net.ipv6.conf.all.disable_ipv6", "1"),
                              SysctlSpec("net.ipv6.conf.default.disable_ipv6", "1")]
            && st.nft.family == "inet" && st.nft.table == "gotun"
            && (forall s :: s in st.nft.sets <==> IsSetSpec(s, p)) && (forall c :: c in st.nft.chains <==> IsChainSpec(c, p))
            && st.ipRules == [IPRuleSpec(if p.rulePriority == 0 then 100 else p.rulePriority, if p.mark == 0 then 1 else p.mark,
                                         if p.table == 0 then 100 else p.table)]
            && (forall r :: r in st.routes <==> IsRouteSpec(r, p))
            && IsWireGuardSpec(st.wireGuard, p.wireGuard, if p.tunnelInterface == "" then "wg-exit" else p.tunnelInterface,
                               p.tunnelUp)
            && IsWireGuardSpec(st.wireGuardClients, p.inboundWireGuard, "wg-clients", p.inboundWireGuard.privateKey != "")
  {
    CompileIff(p);
  }

  // ----- the printed text decides which address or prefix it is

  lemma NetStringInjective(m: Net, n: Net)
    requires NetString(m) == NetString(n)
    ensures m == n
  {
    NetStringShape(m);
    NetStringShape(n);
    if m.Net4? && n.Net4? {
      PrefixStringInjective(m.p, n.p);
    }
  }

  /** IPv4 texts start with a digit and have no colon; IPv6 texts have one; the invalid text has neither. */
  lemma NetStringShape(n: Net)
    ensures n.Net4? ==> NetString(n) != "" && '0' <= NetString(n)[0] <= '9' && ':' !in NetString(n)
    ensures n.Net6? <==> ':' in NetString(n)
    ensures n.NoNet? ==> NetString(n)[0] == 'i'
  {
    if n.Net4? {
      PrefixStringShape(n.p);
    }
  }

  lemma IpStringInjective(m: Ip, n: Ip)
    requires IpString(m) == IpString(n)
    ensures m == n
  {
    IpStringShape(m);
    IpStringShape(n);
    if m.Ip4? && n.Ip4? {
      AddrStringInjective(m.a, n.a);
    }
  }

  lemma IpStringShape(n: Ip)
    ensures n.Ip4? ==> IpString(n) != "" && '0' <= IpString(n)[0] <= '9' && ':' !in IpString(n)
    ensures n.Ip6? <==> ':' in IpString(n)
    ensures n.NoIp? ==> IpString(n)[0] == 'i'
  {
    if n.Ip4? {
      AddrStringShape(n.a);
    }
  }
}
