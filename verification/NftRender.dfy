/** Lowering the declarative table to a script, and replaying the script. */
module NftRender {
  import opened Wrappers
  import opened Ipv4
  import opened CidrText
  import opened Policy
  import opened NftKernel

  const ELEMENT_BATCH_SIZE := 4000

  function IdOf(spec: NftSpec): TableId {
    TableId(spec.family, spec.table)
  }

  // ----- elements in batches

  ghost function Batches(elems: seq<string>): seq<seq<string>> {
    if elems == [] then []
    else if |elems| <= ELEMENT_BATCH_SIZE then [elems]
    else [elems[..ELEMENT_BATCH_SIZE]] + Batches(elems[ELEMENT_BATCH_SIZE..])
  }

  ghost function AddBatches(id: TableId, setName: string, batches: seq<seq<string>>): (cmds: seq<Command>)
    ensures |cmds| == |batches|
  {
    if batches == [] then [] else [AddElement(id, setName, batches[0])] + AddBatches(id, setName, batches[1..])
  }

  /** writeBatchedElements: one "add element" for every 4000 elements. */
  method WriteBatchedElements(id: TableId, setName: string, elements: seq<string>) returns (cmds: seq<Command>)
    ensures cmds == AddBatches(id, setName, Batches(elements))
  {
    cmds := [];
    var i := 0;
    assert elements[0..] == elements;
    while i < |elements|
      invariant 0 <= i
      invariant cmds + AddBatches(id, setName, Batches(elements[if i < |elements| then i else |elements|..]))
             == AddBatches(id, setName, Batches(elements))
    {
      var end := i + ELEMENT_BATCH_SIZE;
      if end > |elements| {
        end := |elements|;
      }
      ghost var rest := elements[i..];
      assert rest[..end - i] == elements[i..end] && rest[end - i..] == elements[end..];
      BatchesStep(id, setName, rest);
      cmds := cmds + [AddElement(id, setName, elements[i..end])];
      i := i + ELEMENT_BATCH_SIZE;
    }
  }

  lemma BatchesStep(id: TableId, setName: string, elems: seq<string>)
    requires elems != []
    ensures var n := if |elems| < ELEMENT_BATCH_SIZE then |elems| else ELEMENT_BATCH_SIZE;
            AddBatches(id, setName, Batches(elems))
              == [AddElement(id, setName, elems[..n])] + AddBatches(id, setName, Batches(elems[n..]))
  {
    if |elems| <= ELEMENT_BATCH_SIZE {
      assert elems[..|elems|] == elems && elems[|elems|..] == [];
    }
  }

  ghost function Flatten(batches: seq<seq<string>>): seq<string> {
    if batches == [] then [] else batches[0] + Flatten(batches[1..])
  }

  /** The batches put together are the list, each holds 1 to 4000 elements, and there are ceil(n / 4000) of them. */
  lemma {:induction false} BatchesExact(elems: seq<string>)
    ensures Flatten(Batches(elems)) == elems
    ensures forall i :: 0 <= i < |Batches(elems)| ==> 1 <= |Batches(elems)[i]| <= 4000
    ensures |Batches(elems)| == (|elems| + 3999) / 4000
  {
    if |elems| > ELEMENT_BATCH_SIZE {
      BatchesExact(elems[ELEMENT_BATCH_SIZE..]);
    }
  }

  // ----- rules and the full script

  ghost function ExcludeNets(nets: seq<Net>): (rules: seq<Rule>)
    ensures |rules| == |nets|
    ensures forall i :: 0 <= i < |nets| ==> rules[i] == Rule([DstNet(nets[i])], Return, "exclude-lan")
  {
    seq(|nets|, i requires 0 <= i < |nets| => Rule([DstNet(nets[i])], Return, "exclude-lan"))
  }

  ghost function ExcludeIps(ips: seq<Ip>): (rules: seq<Rule>)
    ensures |rules| == |ips|
    ensures forall i :: 0 <= i < |ips| ==> rules[i] == Rule([DstIp(ips[i])], Return, "exclude-endpoint")
  {
    seq(|ips|, i requires 0 <= i < |ips| => Rule([DstIp(ips[i])], Return, "exclude-endpoint"))
  }

  ghost function LinesOf(rule: NftRuleSpec): seq<Rule> {
    if rule.dropIPv6 then [Rule([IsIPv6], Drop, "drop-ipv6")]
    else if rule.description == "mark-non-direct" then
      ExcludeNets(rule.excludePrefixes) + ExcludeIps(rule.excludeAddrs)
        + [Rule([DstNotIn(rule.directSet)], SetMark(rule.mark), "mark-non-direct")]
    else if rule.description == "isolate-inbound-from-home" then
      [Rule([InIface(rule.iifName), DstIn(rule.dropDstSet)], Drop, "isolate-inbound-from-home")]
    else []
  }

  ghost function AllLines(rules: seq<NftRuleSpec>): seq<Rule> {
    if rules == [] then [] else LinesOf(rules[0]) + AllLines(rules[1..])
  }

  /** renderRuleLines: a declared rule becomes no, one or several rules of the chain. */
  method RenderRuleLines(chain: NftChainSpec) returns (lines: seq<Rule>)
    ensures lines == AllLines(chain.rules)
  {
    hide LinesOf;
    lines := [];
    var rules := chain.rules;
    for i := 0 to |rules|
      invariant lines + AllLines(rules[i..]) == AllLines(rules)
    {
      var part := RenderRule(rules[i]);
      AllLinesStep(rules, i);
      lines := lines + part;
    }
  }

  lemma AllLinesStep(rules: seq<NftRuleSpec>, i: nat)
    requires i < |rules|
    ensures AllLines(rules[i..]) == LinesOf(rules[i]) + AllLines(rules[i + 1..])
  {
    assert rules[i..][0] == rules[i] && rules[i..][1..] == rules[i + 1..];
  }

  method RenderRule(rule: NftRuleSpec) returns (lines: seq<Rule>)
    ensures lines == LinesOf(rule)
  {
    lines := [];
    if rule.dropIPv6 {
      lines := lines + [Rule([IsIPv6], Drop, "drop-ipv6")];
    } else if rule.description == "mark-non-direct" {
      for j := 0 to |rule.excludePrefixes|
        invariant lines == ExcludeNets(rule.excludePrefixes)[..j]
      {
        lines := lines + [Rule([DstNet(rule.excludePrefixes[j])], Return, "exclude-lan")];
      }
      for j := 0 to |rule.excludeAddrs|
        invariant lines == ExcludeNets(rule.excludePrefixes) + ExcludeIps(rule.excludeAddrs)[..j]
      {
        lines := lines + [Rule([DstIp(rule.excludeAddrs[j])], Return, "exclude-endpoint")];
      }
      lines := lines + [Rule([DstNotIn(rule.directSet)], SetMark(rule.mark), "mark-non-direct")];
    } else if rule.description == "isolate-inbound-from-home" {
      lines := lines + [Rule([InIface(rule.iifName), DstIn(rule.dropDstSet)], Drop, "isolate-inbound-from-home")];
    }
  }

  /** prefixesToStrings */
  function Strings(nets: seq<Net>): (ss: seq<string>)
    ensures |ss| == |nets| && forall i :: 0 <= i < |nets| ==> ss[i] == NetString(nets[i])
  {
    seq(|nets|, i requires 0 <= i < |nets| => NetString(nets[i]))
  }

  ghost function SetScript(id: TableId, spec: NftSetSpec): seq<Command> {
    [AddSet(id, spec.name, spec.typ)] + AddBatches(id, spec.name, Batches(Strings(spec.elements)))
  }

  ghost function SetsScript(id: TableId, sets: seq<NftSetSpec>): seq<Command> {
    if sets == [] then [] else SetScript(id, sets[0]) + SetsScript(id, sets[1..])
  }

  function DeclOf(chain: NftChainSpec): ChainDecl {
    ChainDecl(chain.typ, chain.hook, chain.priority, chain.policy)
  }

  ghost function AddRules(id: TableId, chain: string, rules: seq<Rule>): (cmds: seq<Command>)
    ensures |cmds| == |rules|
    ensures forall i :: 0 <= i < |rules| ==> cmds[i] == AddRule(id, chain, rules[i])
  {
    seq(|rules|, i requires 0 <= i < |rules| => AddRule(id, chain, rules[i]))
  }

  ghost function ChainScript(id: TableId, chain: NftChainSpec): seq<Command> {
    [AddChain(id, chain.name, DeclOf(chain))] + AddRules(id, chain.name, AllLines(chain.rules))
  }

  ghost function ChainsScript(id: TableId, chains: seq<NftChainSpec>): seq<Command> {
    if chains == [] then [] else ChainScript(id, chains[0]) + ChainsScript(id, chains[1..])
  }

  ghost function FullScript(spec: NftSpec): seq<Command> {
    [AddTable(IdOf(spec))] + SetsScript(IdOf(spec), spec.sets) + ChainsScript(IdOf(spec), spec.chains)
  }

  /** RenderFullTable: the table, its sets with their batched elements, then its chains with their rules. */
  method RenderFullTable(spec: NftSpec) returns (script: seq<Command>)
    ensures script == FullScript(spec)
  {
    script := [AddTable(IdOf(spec))];
    var sets := RenderSets(IdOf(spec), spec.sets);
    var chains := RenderChains(IdOf(spec), spec.chains);
    script := script + sets + chains;
  }

  method RenderSets(id: TableId, sets: seq<NftSetSpec>) returns (script: seq<Command>)
    ensures script == SetsScript(id, sets)
  {
    hide SetScript;
    script := [];
    for i := 0 to |sets|
      invariant script + SetsScript(id, sets[i..]) == SetsScript(id, sets)
    {
      SetsScriptStep(id, sets, i);
      var part := RenderSet(id, sets[i]);
      script := script + part;
    }
  }

  lemma SetsScriptStep(id: TableId, sets: seq<NftSetSpec>, i: nat)
    requires i < |sets|
    ensures SetsScript(id, sets[i..]) == SetScript(id, sets[i]) + SetsScript(id, sets[i + 1..])
  {
    assert sets[i..][0] == sets[i] && sets[i..][1..] == sets[i + 1..];
  }

  method RenderChains(id: TableId, chains: seq<NftChainSpec>) returns (script: seq<Command>)
    ensures script == ChainsScript(id, chains)
  {
    hide ChainScript;
    script := [];
    for i := 0 to |chains|
      invariant script + ChainsScript(id, chains[i..]) == ChainsScript(id, chains)
    {
      ChainsScriptStep(id, chains, i);
      var part := RenderChain(id, chains[i]);
      script := script + part;
    }
  }

  lemma ChainsScriptStep(id: TableId, chains: seq<NftChainSpec>, i: nat)
    requires i < |chains|
    ensures ChainsScript(id, chains[i..]) == ChainScript(id, chains[i]) + ChainsScript(id, chains[i + 1..])
  {
    assert chains[i..][0] == chains[i] && chains[i..][1..] == chains[i + 1..];
  }

  method RenderSet(id: TableId, spec: NftSetSpec) returns (script: seq<Command>)
    ensures script == SetScript(id, spec)
  {
    script := [AddSet(id, spec.name, spec.typ)];
    var batched := WriteBatchedElements(id, spec.name, Strings(spec.elements));
    script := script + batched;
  }

  method RenderChain(id: TableId, chain: NftChainSpec) returns (script: seq<Command>)
    ensures script == ChainScript(id, chain)
  {
    hide AddRules, AllLines, DeclOf;
    script := [AddChain(id, chain.name, DeclOf(chain))];
    var lines := RenderRuleLines(chain);
    ghost var adds := AddRules(id, chain.name, lines);
    for j := 0 to |lines|
      invariant script == [AddChain(id, chain.name, DeclOf(chain))] + adds[..j]
    {
      assert adds[..j + 1] == adds[..j] + [adds[j]];
      script := script + [AddRule(id, chain.name, lines[j])];
    }
    assert adds[..|lines|] == adds;
  }

  lemma AllLinesOneTwo(a: NftRuleSpec, b: NftRuleSpec)
    ensures AllLines([a]) == LinesOf(a) && AllLines([a, b]) == LinesOf(a) + LinesOf(b)
  {
    hide LinesOf;
    AllLinesStep([a], 0);
    AllLinesStep([a, b], 0);
    assert [a][0..] == [a] && [a, b][0..] == [a, b] && [a, b][1..] == [b];
  }

  lemma SetsScriptOneTwo(id: TableId, a: NftSetSpec, b: NftSetSpec)
    ensures SetsScript(id, [a]) == SetScript(id, a) && SetsScript(id, [a, b]) == SetScript(id, a) + SetScript(id, b)
  {
    hide SetScript;
    SetsScriptStep(id, [a], 0);
    SetsScriptStep(id, [a, b], 0);
    assert [a][0..] == [a] && [a, b][0..] == [a, b] && [a, b][1..] == [b];
  }

  lemma ChainsScriptOneTwo(id: TableId, a: NftChainSpec, b: NftChainSpec)
    ensures ChainsScript(id, [a]) == ChainScript(id, a) && ChainsScript(id, [a, b]) == ChainScript(id, a) + ChainScript(id, b)
  {
    hide ChainScript;
    ChainsScriptStep(id, [a], 0);
    ChainsScriptStep(id, [a, b], 0);
    assert [a][0..] == [a] && [a, b][0..] == [a, b] && [a, b][1..] == [b];
  }

  // ----- replaying

  ghost function WithElements(t: Table, s: string, elems: set<Prefix>): Table
    requires s in t.sets
  {
    t.(sets := t.sets[s := t.sets[s].(elems := t.sets[s].elems + elems)])
  }

  lemma WithElementsTwice(t: Table, s: string, a: set<Prefix>, b: set<Prefix>)
    requires s in t.sets
    ensures WithElements(WithElements(t, s, a), s, b) == WithElements(t, s, a + b)
  {
    assert t.sets[s].elems + a + b == t.sets[s].elems + (a + b);
    var d := t.sets[s].(elems := t.sets[s].elems + a);
    assert t.sets[s := d][s := d.(elems := d.elems + b)] == t.sets[s := d.(elems := d.elems + b)];
  }

  lemma ApartParts(a: set<Prefix>, b: set<Prefix>)
    requires Apart(a + b)
    ensures Apart(a) && Apart(b)
  {
    hide Disjoint;
    assert forall p :: p in a || p in b ==> p in a + b;
  }

  /** Replaying the batches adds exactly the listed elements to the set, or fails because intervals overlap. */
  lemma {:induction false} ReplayBatches(t: Table, id: TableId, s: string, batches: seq<seq<string>>)
    requires s in t.sets && AllElements(Flatten(batches))
    ensures var elems := ElementSet(Flatten(batches));
            ExecAllIn(t, AddBatches(id, s, batches))
              == if batches == [] || Apart(t.sets[s].elems + elems) then Some(WithElements(t, s, elems)) else None
    decreases |batches|
  {
    if batches == [] {
      var d := t.sets[s];
      assert d.elems + ElementSet([]) == d.elems;
      assert t.sets[s := d] == t.sets;
    } else {
      var b, rest := batches[0], Flatten(batches[1..]);
      SplitElements(b, rest);
      hide AllElements, ElementSet, Apart;
      var old_, next := t.sets[s].elems, WithElements(t, s, ElementSet(b));
      assert ExecIn(t, AddElement(id, s, b)) == if Apart(old_ + ElementSet(b)) then Some(next) else None;
      ExecFirst(t, AddElement(id, s, b), AddBatches(id, s, batches[1..]));
      ReplayBatches(next, id, s, batches[1..]);
      WithElementsTwice(t, s, ElementSet(b), ElementSet(rest));
      assert old_ + ElementSet(b + rest) == old_ + ElementSet(b) + ElementSet(rest);
      if Apart(old_ + ElementSet(b + rest)) {
        ApartParts(old_ + ElementSet(b), ElementSet(rest));
      }
      NoBatchesNoElements(batches[1..], old_ + ElementSet(b));
    }
  }

  lemma NoBatchesNoElements(batches: seq<seq<string>>, elems: set<Prefix>)
    requires AllElements(Flatten(batches))
    ensures batches == [] ==> elems + ElementSet(Flatten(batches)) == elems
  {
  }

  lemma SplitElements(a: seq<string>, b: seq<string>)
    requires AllElements(a + b)
    ensures AllElements(a) && AllElements(b)
    ensures ElementSet(a + b) == ElementSet(a) + ElementSet(b)
  {
    hide ElementOf;
    var c := a + b;
    assert forall i :: 0 <= i < |a| ==> c[i] == a[i];
    assert forall i :: 0 <= i < |b| ==> c[|a| + i] == b[i];
    forall p ensures p in ElementSet(c) <==> p in ElementSet(a) + ElementSet(b) {
      if p in ElementSet(a) {
        var i :| 0 <= i < |a| && ElementOf(a[i]).value == p;
        assert ElementOf(c[i]).value == p;
      }
      if p in ElementSet(b) {
        var i :| 0 <= i < |b| && ElementOf(b[i]).value == p;
        assert ElementOf(c[|a| + i]).value == p;
      }
      if p in ElementSet(c) {
        var i :| 0 <= i < |c| && ElementOf(c[i]).value == p;
        assert if i < |a| then ElementOf(a[i]).value == p else ElementOf(b[i - |a|]).value == p;
      }
    }
  }

  /** The masked prefixes of a list. */
  ghost function MaskedSet(nets: seq<Net>): set<Prefix>
    requires AllNet4(nets)
  {
    set i | 0 <= i < |nets| :: Masked(nets[i].p)
  }

  lemma ElementsOfStrings(nets: seq<Net>)
    requires AllNet4(nets)
    ensures AllElements(Strings(nets)) && ElementSet(Strings(nets)) == MaskedSet(nets)
  {
    hide Masked, ParsePrefix4, ParseAddr4, PrefixString;
    var ss := Strings(nets);
    forall i | 0 <= i < |nets| ensures ElementOf(ss[i]) == Some(Masked(nets[i].p)) {
      ParsePrefix4Iff(ss[i], nets[i].p);
    }
    forall p ensures p in ElementSet(ss) <==> p in MaskedSet(nets) {
      if p in ElementSet(ss) {
        var i :| 0 <= i < |ss| && ElementOf(ss[i]).value == p;
        assert Masked(nets[i].p) == p;
      }
      if p in MaskedSet(nets) {
        var i :| 0 <= i < |nets| && Masked(nets[i].p) == p;
        assert ElementOf(ss[i]).value == p;
      }
    }
  }

  lemma MaskedSetConcat(a: seq<Net>, b: seq<Net>)
    requires AllNet4(a) && AllNet4(b)
    ensures AllNet4(a + b) && MaskedSet(a + b) == MaskedSet(a) + MaskedSet(b)
  {
    hide Masked;
    var c := a + b;
    assert forall i :: 0 <= i < |a| ==> c[i] == a[i];
    assert forall i :: 0 <= i < |b| ==> c[|a| + i] == b[i];
    forall p ensures p in MaskedSet(c) <==> p in MaskedSet(a) + MaskedSet(b) {
      if p in MaskedSet(a) {
        var i :| 0 <= i < |a| && Masked(a[i].p) == p;
        assert Masked(c[i].p) == p;
      }
      if p in MaskedSet(b) {
        var i :| 0 <= i < |b| && Masked(b[i].p) == p;
        assert Masked(c[|a| + i].p) == p;
      }
      if p in MaskedSet(c) {
        var i :| 0 <= i < |c| && Masked(c[i].p) == p;
        assert if i < |a| then Masked(a[i].p) == p else Masked(b[i - |a|].p) == p;
      }
    }
  }

  /** What a table holds in a set, nothing if it has no such set. */
  ghost function ElemsIn(t: Table, s: string): set<Prefix> {
    if s in t.sets then t.sets[s].elems else {}
  }

  /** The table takes a declared set: the type is the same and no intervals overlap. */
  ghost predicate SetFits(t: Table, spec: NftSetSpec)
    requires AllNet4(spec.elements)
  {
    && (spec.name in t.sets ==> t.sets[spec.name].typ == spec.typ)
    && (spec.elements == [] || Apart(ElemsIn(t, spec.name) + MaskedSet(spec.elements)))
  }

  ghost function AddSetTo(t: Table, spec: NftSetSpec): Table
    requires AllNet4(spec.elements)
  {
    t.(sets := t.sets[spec.name := SetDecl(spec.typ, ElemsIn(t, spec.name) + MaskedSet(spec.elements))])
  }

  lemma ReplayElements(t: Table, id: TableId, spec: NftSetSpec)
    requires AllNet4(spec.elements) && spec.name in t.sets
    ensures var elems := MaskedSet(spec.elements);
            ExecAllIn(t, AddBatches(id, spec.name, Batches(Strings(spec.elements))))
              == if spec.elements == [] || Apart(t.sets[spec.name].elems + elems)
                 then Some(WithElements(t, spec.name, elems)) else None
  {
    var ss := Strings(spec.elements);
    assert Batches(ss) == [] <==> ss == [];
    hide *;
    ElementsOfStrings(spec.elements);
    BatchesExact(ss);
    ReplayBatches(t, id, spec.name, Batches(ss));
  }

  /** Replaying the part of a set adds exactly the spec's elements to what the table had, or fails. */
  lemma ReplaySet(t: Table, id: TableId, spec: NftSetSpec)
    requires AllNet4(spec.elements)
    ensures ExecAllIn(t, SetScript(id, spec)) == if SetFits(t, spec) then Some(AddSetTo(t, spec)) else None
  {
    hide Batches, Strings, MaskedSet, Apart, ExecAllIn, AddBatches, AllNet4;
    ExecFirst(t, AddSet(id, spec.name, spec.typ), AddBatches(id, spec.name, Batches(Strings(spec.elements))));
    if spec.name !in t.sets || t.sets[spec.name].typ == spec.typ {
      var next := t.(sets := t.sets[spec.name := SetDecl(spec.typ, ElemsIn(t, spec.name))]);
      assert spec.name in t.sets ==> next.sets == t.sets;
      assert ExecIn(t, AddSet(id, spec.name, spec.typ)) == Some(next);
      ReplayElements(next, id, spec);
      assert WithElements(next, spec.name, MaskedSet(spec.elements)).sets == AddSetTo(t, spec).sets;
    }
  }

  lemma {:induction false} BatchesOn(id: TableId, s: string, batches: seq<seq<string>>)
    ensures OnTable(AddBatches(id, s, batches), id)
  {
    if batches != [] {
      BatchesOn(id, s, batches[1..]);
    }
  }

  ghost function InChain(chain: string, rules: seq<Rule>): (crs: seq<ChainRule>)
    ensures |crs| == |rules| && forall i :: 0 <= i < |rules| ==> crs[i] == ChainRule(chain, rules[i])
  {
    seq(|rules|, i requires 0 <= i < |rules| => ChainRule(chain, rules[i]))
  }

  ghost function AddChainTo(t: Table, chain: NftChainSpec): Table {
    t.(chains := t.chains[chain.name := DeclOf(chain)],
       rules := t.rules + InChain(chain.name, AllLines(chain.rules)))
  }

  ghost predicate AllAccepted(t: Table, rules: seq<Rule>) {
    forall i :: 0 <= i < |rules| ==> RuleAccepted(t, rules[i])
  }

  lemma {:induction false} ReplayRules(t: Table, id: TableId, chain: string, rules: seq<Rule>)
    requires chain in t.chains && AllAccepted(t, rules)
    ensures ExecAllIn(t, AddRules(id, chain, rules)) == Some(t.(rules := t.rules + InChain(chain, rules)))
    decreases |rules|
  {
    if rules == [] {
      assert t.rules + InChain(chain, rules) == t.rules;
    } else {
      var next := t.(rules := t.rules + [ChainRule(chain, rules[0])]);
      AcceptedStill(t, next, rules);
      ReplayRules(next, id, chain, rules[1..]);
      ReplayRuleStep(t, next, id, chain, rules);
    }
  }

  lemma ReplayRuleStep(t: Table, next: Table, id: TableId, chain: string, rules: seq<Rule>)
    requires rules != [] && chain in t.chains && RuleAccepted(t, rules[0])
    requires next == t.(rules := t.rules + [ChainRule(chain, rules[0])])
    ensures ExecAllIn(t, AddRules(id, chain, rules)) == ExecAllIn(next, AddRules(id, chain, rules[1..]))
    ensures next.rules + InChain(chain, rules[1..]) == t.rules + InChain(chain, rules)
  {
    hide RuleAccepted, ExecAllIn, AddRules, InChain;
    assert AddRules(id, chain, rules) == [AddRule(id, chain, rules[0])] + AddRules(id, chain, rules[1..]);
    ExecFirst(t, AddRule(id, chain, rules[0]), AddRules(id, chain, rules[1..]));
  }

  /** Whether a rule is accepted depends only on which sets exist. */
  lemma AcceptedStill(t: Table, u: Table, rules: seq<Rule>)
    requires AllAccepted(t, rules) && t.sets.Keys <= u.sets.Keys
    ensures forall i :: 0 <= i <= |rules| ==> AllAccepted(u, rules[i..])
  {
    forall i | 0 <= i < |rules| ensures RuleAccepted(u, rules[i]) {
      assert RuleAccepted(t, rules[i]);
    }
  }

  /** Replaying the part of a chain declares it and appends its rules, or fails because it is there and different. */
  lemma ReplayChain(t: Table, id: TableId, chain: NftChainSpec)
    requires AllAccepted(t, AllLines(chain.rules))
    ensures ExecAllIn(t, ChainScript(id, chain))
         == if chain.name in t.chains && t.chains[chain.name] != DeclOf(chain) then None else Some(AddChainTo(t, chain))
  {
    var lines := AllLines(chain.rules);
    ExecFirst(t, AddChain(id, chain.name, DeclOf(chain)), AddRules(id, chain.name, lines));
    if chain.name !in t.chains || t.chains[chain.name] == DeclOf(chain) {
      var next := t.(chains := t.chains[chain.name := DeclOf(chain)]);
      assert t.chains[chain.name := DeclOf(chain)] == next.chains;
      assert ExecIn(t, AddChain(id, chain.name, DeclOf(chain))) == Some(next) by {
        assert chain.name in t.chains ==> t.chains[chain.name := DeclOf(chain)] == t.chains;
      }
      AcceptedStill(t, next, lines);
      assert lines[0..] == lines;
      ReplayRules(next, id, chain.name, lines);
    }
  }
}
