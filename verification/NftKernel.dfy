/** A small kernel: nftables tables, the commands of an nft -f script, and what a base chain
  does to a packet. This is where the kernel's behaviour is stated; nothing here is proved of it. */
module NftKernel {
  import opened Wrappers
  import opened Ipv4
  import opened CidrText
  import opened Policy

  // ----- tables

  datatype Match =
    | IsIPv6
    | DstNet(net: Net)
    | DstIp(ip: Ip)
    | DstIn(setName: string)
    | DstNotIn(setName: string)
    | InIface(name: string)

  datatype Action = Drop | Return | SetMark(mark: Mark)

  datatype Rule = Rule(matches: seq<Match>, action: Action, comment: string)

  /** An interval set; its elements are kept masked. */
  datatype SetDecl = SetDecl(typ: string, elems: set<Prefix>)

  datatype ChainDecl = ChainDecl(typ: string, hook: string, priority: int, policy: string)

  datatype ChainRule = ChainRule(chain: string, rule: Rule)

  datatype Table = Table(sets: map<string, SetDecl>, chains: map<string, ChainDecl>, rules: seq<ChainRule>)

  datatype TableId = TableId(family: string, name: string)

  type Ruleset = map<TableId, Table>

  const EMPTY_TABLE := Table(map[], map[], [])

  // ----- scripts

  datatype Command =
    | AddTable(id: TableId)
    | DeleteTable(id: TableId)
    | AddSet(id: TableId, setName: string, typ: string)
    | AddElement(id: TableId, setName: string, elems: seq<string>)
    | FlushSet(id: TableId, setName: string)
    | AddChain(id: TableId, chain: string, decl: ChainDecl)
    | AddRule(id: TableId, chain: string, rule: Rule)

  /** An element of an ipv4_addr interval set: a prefix or a single address. */
  function ElementOf(text: string): Option<Prefix> {
    match ParsePrefix4(text)
    case Some(p) => Some(Masked(p))
    case None =>
      match ParseAddr4(text)
      case Some(a) => Some(Prefix(a, 32))
      case None => None
  }

  predicate AllElements(elems: seq<string>) {
    forall i :: 0 <= i < |elems| ==> ElementOf(elems[i]).Some?
  }

  function ElementSet(elems: seq<string>): set<Prefix>
    requires AllElements(elems)
  {
    set i | 0 <= i < |elems| :: ElementOf(elems[i]).value
  }

  /** Intervals of one set may repeat but not overlap. */
  predicate Apart(elems: set<Prefix>) {
    forall p, q :: p in elems && q in elems ==> p == q || Disjoint(p, q)
  }

  /** "ip daddr" takes only IPv4 operands, and a set must exist to be referred to. */
  predicate MatchAccepted(t: Table, m: Match) {
    match m
    case DstNet(net) => net.Net4?
    case DstIp(ip) => ip.Ip4?
    case DstIn(s) => s in t.sets
    case DstNotIn(s) => s in t.sets
    case _ => true
  }

  predicate RuleAccepted(t: Table, r: Rule) {
    forall i :: 0 <= i < |r.matches| ==> MatchAccepted(t, r.matches[i])
  }

  /** One command; None is an error. */
  function Exec(rs: Ruleset, c: Command): Option<Ruleset> {
    match c
    case AddTable(id) => Some(if id in rs then rs else rs[id := EMPTY_TABLE])
    case DeleteTable(id) => if id in rs then Some(rs - {id}) else None
    case _ => if c.id !in rs then None else
      match ExecIn(rs[c.id], c)
      case Some(t) => Some(rs[c.id := t])
      case None => None
  }

  /** A command on an existing table. Adding again what exists is no error, an interval that overlaps another one is;
      a rule is always appended. */
  function ExecIn(t: Table, c: Command): Option<Table> {
    match c
    case AddSet(_, s, typ) =>
      if s !in t.sets then Some(t.(sets := t.sets[s := SetDecl(typ, {})]))
      else if t.sets[s].typ == typ then Some(t) else None
    case AddElement(_, s, elems) =>
      if s !in t.sets || !AllElements(elems) || !Apart(t.sets[s].elems + ElementSet(elems)) then None
      else Some(t.(sets := t.sets[s := t.sets[s].(elems := t.sets[s].elems + ElementSet(elems))]))
    case FlushSet(_, s) =>
      if s !in t.sets then None else Some(t.(sets := t.sets[s := t.sets[s].(elems := {})]))
    case AddChain(_, n, decl) =>
      if n !in t.chains then Some(t.(chains := t.chains[n := decl]))
      else if t.chains[n] == decl then Some(t) else None
    case AddRule(_, n, rule) =>
      if n !in t.chains || !RuleAccepted(t, rule) then None
      else Some(t.(rules := t.rules + [ChainRule(n, rule)]))
    case _ => Some(t)
  }

  function ExecAll(rs: Ruleset, cmds: seq<Command>): Option<Ruleset>
    decreases |cmds|
  {
    if cmds == [] then Some(rs)
    else
      match Exec(rs, cmds[0])
      case Some(next) => ExecAll(next, cmds[1..])
      case None => None
  }

  /** The commands of a script that work on one existing table. */
  function ExecAllIn(t: Table, cmds: seq<Command>): Option<Table>
    decreases |cmds|
  {
    if cmds == [] then Some(t)
    else
      match ExecIn(t, cmds[0])
      case Some(next) => ExecAllIn(next, cmds[1..])
      case None => None
  }

  // ----- packets

  datatype Dest = V4(a: Addr) | V6

  datatype Packet = Packet(dst: Dest, iif: string, mark: Mark)

  datatype Verdict = Accept(mark: Mark) | Dropped

  ghost predicate InSet(t: Table, s: string, a: Addr) {
    s in t.sets && exists p :: p in t.sets[s].elems && In(a, p)
  }

  ghost predicate Holds(t: Table, m: Match, pkt: Packet) {
    match m
    case IsIPv6 => pkt.dst.V6?
    case DstNet(net) => pkt.dst.V4? && net.Net4? && In(pkt.dst.a, net.p)
    case DstIp(ip) => pkt.dst.V4? && ip == Ip4(pkt.dst.a)
    case DstIn(s) => pkt.dst.V4? && InSet(t, s, pkt.dst.a)
    case DstNotIn(s) => pkt.dst.V4? && s in t.sets && !InSet(t, s, pkt.dst.a)
    case InIface(name) => pkt.iif == name
  }

  ghost predicate Applies(t: Table, r: Rule, pkt: Packet) {
    forall i :: 0 <= i < |r.matches| ==> Holds(t, r.matches[i], pkt)
  }

  /** What the policy of the base chain says at its end, and after a return. */
  function AtEnd(t: Table, chain: string, pkt: Packet): Verdict {
    if chain in t.chains && t.chains[chain].policy == "drop" then Dropped else Accept(pkt.mark)
  }

  /** The rules of one chain, in order. */
  ghost function RunRules(t: Table, chain: string, rules: seq<ChainRule>, pkt: Packet): Verdict {
    if rules == [] then AtEnd(t, chain, pkt)
    else if rules[0].chain != chain || !Applies(t, rules[0].rule, pkt) then RunRules(t, chain, rules[1..], pkt)
    else
      match rules[0].rule.action
      case Drop => Dropped
      case Return => AtEnd(t, chain, pkt)
      case SetMark(m) => RunRules(t, chain, rules[1..], pkt.(mark := m))
  }

  /** The base chain that the table attaches to a hook under the hook's name. */
  ghost function RunHook(t: Table, hook: string, pkt: Packet): Verdict {
    if hook in t.chains && t.chains[hook].hook == hook then RunRules(t, hook, t.rules, pkt) else Accept(pkt.mark)
  }

  // ----- script lemmas

  lemma {:induction false} ExecAllInConcat(t: Table, a: seq<Command>, b: seq<Command>)
    ensures ExecAllIn(t, a + b) == match ExecAllIn(t, a) case Some(next) => ExecAllIn(next, b) case None => None
    decreases |a|
  {
    if a == [] {
      assert a + b == b;
    } else {
      assert (a + b)[0] == a[0] && (a + b)[1..] == a[1..] + b;
      match ExecIn(t, a[0]) {
        case Some(next) => ExecAllInConcat(next, a[1..], b);
        case None =>
      }
    }
  }

  ghost predicate OnTable(cmds: seq<Command>, id: TableId) {
    forall i :: 0 <= i < |cmds| ==> cmds[i].id == id && !cmds[i].DeleteTable?
  }

  /** A script on one existing table touches no other table. */
  lemma {:induction false} ExecAllLocal(rs: Ruleset, id: TableId, cmds: seq<Command>)
    requires id in rs && OnTable(cmds, id)
    ensures ExecAll(rs, cmds) == match ExecAllIn(rs[id], cmds) case Some(t) => Some(rs[id := t]) case None => None
    decreases |cmds|
  {
    if cmds == [] {
      assert rs == rs[id := rs[id]];
    } else {
      var c := cmds[0];
      match ExecIn(rs[id], c) {
        case Some(t) =>
          var next := rs[id := t];
          assert c.AddTable? ==> next == rs;
          assert Exec(rs, c) == Some(next);
          ExecAllLocal(next, id, cmds[1..]);
          if u :| ExecAllIn(t, cmds[1..]) == Some(u) {
            assert next[id := u] == rs[id := u];
          }
        case None =>
      }
    }
  }

  lemma ExecAllFirst(rs: Ruleset, c: Command, rest: seq<Command>)
    ensures ExecAll(rs, [c] + rest) == match Exec(rs, c) case Some(next) => ExecAll(next, rest) case None => None
  {
    assert ([c] + rest)[1..] == rest;
  }

  lemma ExecFirst(t: Table, c: Command, rest: seq<Command>)
    ensures ExecAllIn(t, [c] + rest) == match ExecIn(t, c) case Some(next) => ExecAllIn(next, rest) case None => None
  {
    assert ([c] + rest)[1..] == rest;
  }

  ghost predicate SameElsewhere(rs: Ruleset, next: Ruleset, id: TableId) {
    forall j :: j != id ==> (j in next <==> j in rs) && (j in rs ==> next[j] == rs[j])
  }

  /** A script whose commands all name one table leaves every other table alone. */
  lemma {:induction false} ExecAllFrame(rs: Ruleset, id: TableId, cmds: seq<Command>)
    requires forall i :: 0 <= i < |cmds| ==> cmds[i].id == id
    ensures ExecAll(rs, cmds).Some? ==> SameElsewhere(rs, ExecAll(rs, cmds).value, id)
    decreases |cmds|
  {
    if cmds != [] {
      match Exec(rs, cmds[0]) {
        case Some(next) => ExecAllFrame(next, id, cmds[1..]);
        case None =>
      }
    }
  }

  /** A command that every table rejects makes a script on one table fail. */
  lemma {:induction false} BadCommandFails(t: Table, cmds: seq<Command>, c: Command)
    requires c in cmds && forall u: Table :: ExecIn(u, c) == None
    ensures ExecAllIn(t, cmds) == None
    decreases |cmds|
  {
    if cmds[0] != c {
      match ExecIn(t, cmds[0]) {
        case Some(next) => BadCommandFails(next, cmds[1..], c);
        case None =>
      }
    }
  }

  // ----- rule lemmas

  /** Rules of other chains are skipped. */
  lemma {:induction false} RunSkips(t: Table, chain: string, others: seq<ChainRule>, pkt: Packet)
    requires forall i :: 0 <= i < |others| ==> others[i].chain != chain
    ensures RunRules(t, chain, others, pkt) == AtEnd(t, chain, pkt)
  {
    if others != [] {
      RunSkips(t, chain, others[1..], pkt);
    }
  }

  lemma {:induction false} RunSkipsFirst(t: Table, chain: string, others: seq<ChainRule>, rest: seq<ChainRule>, pkt: Packet)
    requires forall i :: 0 <= i < |others| ==> others[i].chain != chain
    ensures RunRules(t, chain, others + rest, pkt) == RunRules(t, chain, rest, pkt)
  {
    if others == [] {
      assert others + rest == rest;
    } else {
      assert (others + rest)[0] == others[0] && (others + rest)[1..] == others[1..] + rest;
      RunSkipsFirst(t, chain, others[1..], rest, pkt);
    }
  }

  lemma RunFirst(t: Table, chain: string, r: Rule, rest: seq<ChainRule>, pkt: Packet)
    ensures RunRules(t, chain, [ChainRule(chain, r)] + rest, pkt)
         == if !Applies(t, r, pkt) then RunRules(t, chain, rest, pkt)
            else match r.action
                 case Drop => Dropped
                 case Return => AtEnd(t, chain, pkt)
                 case SetMark(m) => RunRules(t, chain, rest, pkt.(mark := m))
  {
    var rules := [ChainRule(chain, r)] + rest;
    assert rules[0] == ChainRule(chain, r) && rules[1..] == rest;
  }
}
