/** Applies as steps of a run: owned states, histories of the owned table, and what each step keeps and reaches. */
module Runs {
  import opened Wrappers
  import opened Text
  import opened Policy
  import opened NftKernel
  import opened NftRender
  import opened NftPile
  import opened NftLive
  import opened NftDecision
  import opened NftSoundness
  import opened Routing
  import opened RuleListing
  import opened Kernel
  import opened Reconcile

  // ----- owned states

  ghost predicate DefaultNumbers(p: Policy) {
    MarkOf(p) == DEFAULT_MARK && TableOf(p) == DEFAULT_TABLE_ID && PriorityOf(p) == DEFAULT_RULE_PRIORITY
  }

  const BLACKHOLE: Route := Route(Blackhole, 100)

  ghost predicate OwnedRoute(r: Route, links: set<string>) {
    r == BLACKHOLE || (r.metric == 10 && r.hop.Dev? && r.hop.name in links)
  }

  ghost predicate AllValid(links: set<string>) {
    forall n :: n in links ==> ValidName(n)
  }

  ghost predicate OwnedRoutes(k: State) {
    && (forall r :: r in RoutesIn(k, 100) ==> OwnedRoute(r, k.links))
    && AllValid(k.links)
  }

  /** Rules and routes as applies leave them, beside any foreign rules that do not look like the owned one. */
  ghost predicate OwnedRouting(k: State) {
    OwnedRules(k.rules) && OwnedRoutes(k)
  }

  ghost predicate Built(h: seq<Policy>) {
    Pile(h) && AllSound(h) && forall i :: 0 <= i < |h| ==> DefaultNumbers(h[i])
  }

  /** The owned table is absent, or that of the history. */
  ghost predicate Tracks(k: State, h: seq<Policy>) {
    (OWNED in k.nft <==> h != []) && (h != [] ==> Built(h) && k.nft[OWNED] == PileTable(h))
  }

  ghost predicate Owned(k: State, h: seq<Policy>) {
    Tracks(k, h) && OwnedRouting(k)
  }

  // ----- what an apply does to the history

  datatype How = Kept | PiledOn | Rebuilt

  /** Whether the table is kept, piled on, or built anew; blind says that listing it fails. */
  ghost function HowOf(h: seq<Policy>, blind: bool, p: Policy): How {
    if h == [] then Rebuilt else if blind then PiledOn else if Recognised(h, p) then Kept else Rebuilt
  }

  ghost function Longer(h: seq<Policy>, blind: bool, p: Policy): seq<Policy> {
    match HowOf(h, blind, p)
    case Kept => h
    case PiledOn => h + [p]
    case Rebuilt => [p]
  }

  // ----- runs

  datatype Event = Apply(p: Policy, w: World) | Lost(name: string) | Back(name: string)

  ghost function Step(k: State, e: Event): State {
    match e
    case Apply(p, w) => ApplyPolicy(k, w, p).k
    case Lost(name) => LinkLost(k, name)
    case Back(name) => LinkBack(k, name)
  }

  ghost function RunEvents(k: State, es: seq<Event>): State
    decreases |es|
  {
    if es == [] then k else RunEvents(Step(k, es[0]), es[1..])
  }

  /** Applies of policies with the default numbers, any call of which may fail, and link events. */
  ghost predicate Allowed(e: Event) {
    match e
    case Apply(p, w) => DefaultNumbers(p)
    case Lost(_) => true
    case Back(name) => ValidName(name)
  }

  /** The states between the stages of an apply that compiles. */
  ghost function AfterSysctl(k: State, w: World): Outcome {
    SysctlSteps(k, w.fails, Sysctls())
  }

  ghost function AfterNft(k: State, w: World, p: Policy): Outcome {
    NftStep(AfterSysctl(k, w).k, w.fails, NftOf(p))
  }

  /** The history after an event: it changes when the nft stage of an apply is reached and succeeds. */
  ghost function NextHistory(k: State, h: seq<Policy>, e: Event): seq<Policy> {
    match e
    case Apply(p, w) =>
      if Sound(p) && AfterSysctl(k, w).ok && AfterNft(k, w, p).ok then Longer(h, w.fails(NftList), p) else h
    case _ => h
  }

  ghost function RunHistory(k: State, h: seq<Policy>, es: seq<Event>): seq<Policy>
    decreases |es|
  {
    if es == [] then h else RunHistory(Step(k, es[0]), NextHistory(k, h, es[0]), es[1..])
  }

  // ----- sysctl

  lemma {:induction false} SysctlFrame(k: State, f: Faults, specs: seq<SysctlSpec>)
    ensures var o := SysctlSteps(k, f, specs); o.k == k.(sysctls := o.k.sysctls)
    decreases |specs|
  {
    if specs != [] {
      SysctlFrame(SysctlStep(k, f, specs[0]).k, f, specs[1..]);
    }
  }

  ghost predicate DistinctKeys(specs: seq<SysctlSpec>) {
    forall i, j :: 0 <= i < j < |specs| ==> specs[i].key != specs[j].key
  }

  ghost predicate AllSet(k: State, specs: seq<SysctlSpec>) {
    forall i :: 0 <= i < |specs| ==> SysctlIs(k, specs[i])
  }

  lemma {:induction false} SysctlKeeps(k: State, f: Faults, specs: seq<SysctlSpec>, s: SysctlSpec)
    requires SysctlIs(k, s) && forall i :: 0 <= i < |specs| ==> specs[i].key != s.key
    ensures SysctlIs(SysctlSteps(k, f, specs).k, s)
    decreases |specs|
  {
    if specs != [] {
      SysctlKeeps(SysctlStep(k, f, specs[0]).k, f, specs[1..], s);
    }
  }

  lemma {:induction false} SysctlReached(k: State, f: Faults, specs: seq<SysctlSpec>)
    requires DistinctKeys(specs) && SysctlSteps(k, f, specs).ok
    ensures AllSet(SysctlSteps(k, f, specs).k, specs)
    decreases |specs|
  {
    if specs != [] {
      var o := SysctlStep(k, f, specs[0]);
      SysctlReached(o.k, f, specs[1..]);
      SysctlKeeps(o.k, f, specs[1..], specs[0]);
      assert forall i :: 0 < i < |specs| ==> specs[i] == specs[1..][i - 1];
    }
  }

  lemma {:induction false} SysctlNoChange(k: State, f: Faults, specs: seq<SysctlSpec>)
    requires AllSet(k, specs) && forall c :: !f(c)
    ensures SysctlSteps(k, f, specs) == Outcome(k, 0, true)
    decreases |specs|
  {
    if specs != [] {
      assert SysctlIs(k, specs[0]);
      SysctlNoChange(k, f, specs[1..]);
    }
  }

  ghost predicate SameKey(k: State, a: State, key: string) {
    (key in a.sysctls <==> key in k.sysctls) && (key in k.sysctls ==> a.sysctls[key] == k.sysctls[key])
  }

  /** The value is there, and this is seen. */
  ghost predicate SeenRight(k: State, f: Faults, s: SysctlSpec) {
    !f(CatSysctl(s.key)) && s.key in k.sysctls && k.sysctls[s.key] == s.value
  }

  /** It is not seen, and one of the two ways to write it works. */
  ghost predicate Written(k: State, f: Faults, s: SysctlSpec) {
    !SeenRight(k, f, s) && !(f(EchoSysctl(s.key)) && f(WriteSysctl(s.key)))
  }

  /** It is not seen and cannot be written, and a second look does not find it either. */
  ghost predicate Stuck(k: State, f: Faults, s: SysctlSpec) {
    && !SeenRight(k, f, s) && f(EchoSysctl(s.key)) && f(WriteSysctl(s.key))
    && (f(CatSysctlAgain(s.key)) || s.key !in k.sysctls || k.sysctls[s.key] != s.value)
  }

  ghost function WrittenSpecs(k: State, f: Faults, specs: seq<SysctlSpec>): set<SysctlSpec> {
    set s | s in specs && Written(k, f, s)
  }

  lemma OtherKeySame(k: State, f: Faults, s: SysctlSpec, t: SysctlSpec)
    requires s.key != t.key
    ensures var next := SysctlStep(k, f, s).k;
            && (Written(next, f, t) <==> Written(k, f, t)) && (Stuck(next, f, t) <==> Stuck(k, f, t))
  {
  }

  lemma FirstOfSpecs(k: State, f: Faults, specs: seq<SysctlSpec>)
    requires specs != [] && DistinctKeys(specs)
    ensures var next, rest := SysctlStep(k, f, specs[0]).k, specs[1..];
            && DistinctKeys(rest) && (forall s :: s in rest ==> s.key != specs[0].key)
            && WrittenSpecs(k, f, specs) == (if Written(k, f, specs[0]) then {specs[0]} else {}) + WrittenSpecs(next, f, rest)
            && specs[0] !in WrittenSpecs(next, f, rest)
            && ((exists s :: s in specs && Stuck(k, f, s)) <==> Stuck(k, f, specs[0]) || exists s :: s in rest && Stuck(next, f, s))
  {
    var rest := specs[1..];
    assert specs == [specs[0]] + rest;
    forall s | s in rest ensures s.key != specs[0].key {
      var i :| 0 <= i < |rest| && rest[i] == s;
      assert specs[i + 1] == s;
    }
    forall s | s in rest
      ensures var next := SysctlStep(k, f, specs[0]).k;
              (Written(next, f, s) <==> Written(k, f, s)) && (Stuck(next, f, s) <==> Stuck(k, f, s))
    {
      OtherKeySame(k, f, specs[0], s);
    }
    hide SysctlStep, Written, Stuck;
  }

  lemma SysctlFirst(k: State, f: Faults, s: SysctlSpec)
    ensures var o := SysctlStep(k, f, s);
            && (o.ok <==> !Stuck(k, f, s)) && o.changes == (if Written(k, f, s) then 1 else 0)
            && (Written(k, f, s) ==> SysctlIs(o.k, s))
            && forall key :: (Written(k, f, s) ==> s.key != key) ==> SameKey(k, o.k, key)
  {
  }

  /** Reconciling sysctls, whatever calls fail: it succeeds exactly if none is stuck, and then counts exactly those that it
      wrote, and these have their values. */
  lemma {:induction false} SysctlStepsIff(k: State, f: Faults, specs: seq<SysctlSpec>)
    requires DistinctKeys(specs)
    ensures var o := SysctlSteps(k, f, specs);
            && (o.ok <==> !exists s :: s in specs && Stuck(k, f, s))
            && (o.ok ==> o.changes == |WrittenSpecs(k, f, specs)|)
            && (o.ok ==> forall s :: s in WrittenSpecs(k, f, specs) ==> SysctlIs(o.k, s))
    decreases |specs|
  {
    if specs != [] {
      var o := SysctlStep(k, f, specs[0]);
      FirstOfSpecs(k, f, specs);
      SysctlFirst(k, f, specs[0]);
      SysctlStepsIff(o.k, f, specs[1..]);
      hide SysctlStep, Stuck, Written, WrittenSpecs, SysctlIs, DistinctKeys, SameKey;
      forall i | 0 <= i < |specs[1..]| ensures specs[1..][i].key != specs[0].key {
        assert specs[1..][i] in specs[1..];
      }
      if Written(k, f, specs[0]) {
        SysctlKeeps(o.k, f, specs[1..], specs[0]);
      }
    }
  }

  /** No key changes but those of the sysctls that are to be written. */
  lemma {:induction false} SysctlStepsFrame(k: State, f: Faults, specs: seq<SysctlSpec>, key: string)
    requires DistinctKeys(specs) && forall s :: s in WrittenSpecs(k, f, specs) ==> s.key != key
    ensures SameKey(k, SysctlSteps(k, f, specs).k, key)
    decreases |specs|
  {
    if specs != [] {
      FirstOfSpecs(k, f, specs);
      SysctlFirst(k, f, specs[0]);
      hide SysctlStep, Stuck, Written, WrittenSpecs, DistinctKeys;
      assert Written(k, f, specs[0]) ==> specs[0] in WrittenSpecs(k, f, specs);
      SysctlStepsFrame(SysctlStep(k, f, specs[0]).k, f, specs[1..], key);
    }
  }

  lemma SysctlKeysDistinct()
    ensures DistinctKeys(Sysctls())
  {
    var s := Sysctls();
    assert |s[0].key| != |s[1].key| && |s[0].key| != |s[2].key| && |s[1].key| != |s[2].key|;
  }

  // ----- nft

  lemma OwnedId(p: Policy)
    ensures IdOf(NftOf(p)) == OWNED
  {
  }

  lemma NftStepOpened(k: State, h: seq<Policy>, f: Faults, p: Policy)
    requires Sound(p) && Tracks(k, h)
    ensures NftStep(k, f, NftOf(p))
         == if HowOf(h, f(NftList), p) == Kept then Outcome(k, 0, true)
            else if f(NftScript) then Outcome(k, 0, false)
            else match ExecAll(k.nft, ApplyScript(h != [] && !f(NftList), NftOf(p)))
                 case Some(rs) => Outcome(k.(nft := rs), 1, true)
                 case None => Outcome(k, 0, false)
  {
    OwnedId(p);
    if h != [] {
      MatchIff(h, p);
    }
    hide Recognised, SemanticMatch, Listing, ApplyScript, ExecAll, NftOf, PileTable, Pile, Sound, AllSound, DefaultNumbers;
  }

  lemma ScriptGives(k: State, h: seq<Policy>, blind: bool, p: Policy)
    requires Sound(p) && Tracks(k, h) && HowOf(h, blind, p) != Kept
    ensures var g := Longer(h, blind, p);
            ExecAll(k.nft, ApplyScript(h != [] && !blind, NftOf(p)))
              == if Pile(g) then Some(k.nft[OWNED := PileTable(g)]) else None
  {
    ScriptBuildsTable(k.nft, p);
    RenderedIff(p);
    hide Recognised, ApplyScript, ExecAll, NftOf, PileTable, Pile, RenderedTable, Renderable, Sound, AllSound, DefaultNumbers;
    if h != [] && blind {
      assert Pile(h);
      ScriptPilesUp(k.nft, h, p);
    }
  }

  /** The nft step from any table that applies leave: when it succeeds, what it counts, and which history it leaves; a
      failure changes nothing, and other tables are never touched. */
  lemma NftStepCases(k: State, h: seq<Policy>, f: Faults, p: Policy)
    requires Sound(p) && Tracks(k, h)
    ensures var o, g := NftStep(k, f, NftOf(p)), Longer(h, f(NftList), p);
            && o.k == k.(nft := o.k.nft)
            && (o.ok <==> HowOf(h, f(NftList), p) == Kept || (!f(NftScript) && Pile(g)))
            && (o.ok ==> && Pile(g) && o.k.nft == k.nft[OWNED := PileTable(g)]
                         && o.changes == if HowOf(h, f(NftList), p) == Kept then 0 else 1)
            && (!o.ok ==> o.k == k && o.changes == 0)
  {
    NftStepOpened(k, h, f, p);
    if HowOf(h, f(NftList), p) == Kept {
      KeptTable(k, h, f(NftList), p);
    } else {
      ScriptGives(k, h, f(NftList), p);
    }
    hide NftStep, HowOf, Longer, ApplyScript, ExecAll, NftOf, PileTable, Pile, Tracks, Sound;
  }

  /** The nft step from any ruleset whatever: a listing that shows the policy leaves everything as it is and counts nothing;
      else, if the table could be listed or is not there, it becomes the policy's own table and counts one change, or the
      script fails and nothing changes. */
  lemma NftStepAny(k: State, f: Faults, p: Policy)
    requires Sound(p) && (OWNED in k.nft ==> !f(NftList))
    ensures var o := NftStep(k, f, NftOf(p));
            if OWNED in k.nft && SemanticMatch(Listing(k.nft[OWNED]), NftOf(p)) then o == Outcome(k, 0, true)
            else if !f(NftScript) && Renderable(p) then o == Outcome(k.(nft := k.nft[OWNED := RenderedTable(p)]), 1, true)
            else o == Outcome(k, 0, false)
  {
    OwnedId(p);
    ScriptBuildsTable(k.nft, p);
    hide SemanticMatch, Listing, ApplyScript, ExecAll, NftOf, RenderedTable, Renderable, Sound;
  }

  lemma KeptTable(k: State, h: seq<Policy>, blind: bool, p: Policy)
    requires Tracks(k, h) && HowOf(h, blind, p) == Kept
    ensures Longer(h, blind, p) == h && Pile(h) && k.nft[OWNED := PileTable(h)] == k.nft
  {
    hide Pile, PileTable, Recognised;
    assert Pile(h);
  }

  lemma RenderedIff(p: Policy)
    ensures Renderable(p) <==> Pile([p])
    ensures Renderable(p) ==> RenderedTable(p) == PileTable([p])
  {
    PileOne(p);
  }

  // ----- rules

  lemma NothingShown(want: IPRuleSpec)
    ensures !RuleShown("", want)
  {
    var t := "fwmark 0x" + Hex(want.mark);
    assert forall i: nat :: !OccursAt("", t, i);
  }

  lemma {:induction false} RemovedParts(rules: seq<FwRule>)
    ensures ForeignPart(RemoveFirst(rules, DEFAULT_RULE_PRIORITY)) == ForeignPart(rules)
    ensures var own := OwnPart(rules);
            OwnPart(RemoveFirst(rules, DEFAULT_RULE_PRIORITY)) == if own == [] then [] else own[1..]
  {
    if rules != [] && rules[0].priority != DEFAULT_RULE_PRIORITY {
      RemovedParts(rules[1..]);
    }
  }

  lemma {:induction false} InsertedParts(rules: seq<FwRule>)
    ensures ForeignPart(InsertRule(rules, OWN_RULE)) == ForeignPart(rules)
    ensures OwnPart(rules) == [] ==> OwnPart(InsertRule(rules, OWN_RULE)) == [OWN_RULE]
  {
    if rules == [] || OWN_RULE.priority < rules[0].priority {
      assert ([OWN_RULE] + rules)[1..] == rules;
    } else {
      InsertedParts(rules[1..]);
    }
  }

  /** The step for the owned rule, from any rules whatever, leaves the foreign rules alone. */
  lemma RuleStepForeign(k: State, f: Faults)
    ensures var o := RuleSteps(k, f, [OWN_RULE_SPEC]);
            o.k == k.(rules := o.k.rules) && ForeignPart(o.k.rules) == ForeignPart(k.rules)
  {
    var deleted := RuleDeleted(k, f, 100);
    RemovedParts(k.rules);
    InsertedParts(deleted.rules);
    RuleStepsOne(k, f);
    hide RuleShown, RulesText, RemoveFirst, InsertRule, OwnPart, ForeignPart;
  }

  ghost function AtPriority(rules: seq<FwRule>, n: int): seq<FwRule> {
    if rules == [] then [] else (if rules[0].priority == n then [rules[0]] else []) + AtPriority(rules[1..], n)
  }

  lemma {:induction false} RemovedAt(rules: seq<FwRule>, p: int, n: int)
    ensures var at := AtPriority(rules, n);
            AtPriority(RemoveFirst(rules, p), n) == if n == p && at != [] then at[1..] else at
  {
    if rules != [] && rules[0].priority != p {
      RemovedAt(rules[1..], p, n);
    }
  }

  lemma {:induction false} InsertedAt(rules: seq<FwRule>, r: FwRule, n: int)
    ensures var at, next := AtPriority(rules, n), AtPriority(InsertRule(rules, r), n);
            if n == r.priority then r in next && multiset(next) == multiset(at) + multiset{r} else next == at
  {
    if rules == [] || r.priority < rules[0].priority {
      assert ([r] + rules)[1..] == rules;
      assert multiset([r] + AtPriority(rules, n)) == multiset{r} + multiset(AtPriority(rules, n));
    } else {
      InsertedAt(rules[1..], r, n);
      hide AtPriority, InsertRule;
      InsertedBehind(rules, r, n);
    }
  }

  lemma InsertedBehind(rules: seq<FwRule>, r: FwRule, n: int)
    requires rules != [] && r.priority >= rules[0].priority
    ensures var head := if rules[0].priority == n then [rules[0]] else [];
            && AtPriority(rules, n) == head + AtPriority(rules[1..], n)
            && AtPriority(InsertRule(rules, r), n) == head + AtPriority(InsertRule(rules[1..], r), n)
  {
    var next := [rules[0]] + InsertRule(rules[1..], r);
    assert next[0] == rules[0] && next[1..] == InsertRule(rules[1..], r);
  }

  /** The step for any wanted rule, from any rules whatever: if the tests on the listing pass, nothing happens; else one
      rule of that priority is deleted and the wanted one added, which counts one change, or adding fails, which counts
      none. */
  lemma RuleStepAny(k: State, f: Faults, want: IPRuleSpec)
    ensures var o, rule, n := RuleStep(k, f, want), FwRule(want.priority, want.mark, want.table), want.priority;
            var at := AtPriority(k.rules, n);
            var left := if f(RuleDel(n)) || at == [] then at else at[1..];
            && o.k == k.(rules := o.k.rules)
            && if !f(RuleShow(n)) && RuleShown(RulesText(k.rules), want) then o == Outcome(k, 0, true)
               else
                 && (o.ok <==> !f(RuleAdd(n)) && rule !in left) && o.changes == (if o.ok then 1 else 0)
                 && (o.ok ==> rule in o.k.rules && multiset(AtPriority(o.k.rules, n)) == multiset(left) + multiset{rule})
                 && (!o.ok ==> AtPriority(o.k.rules, n) == left)
  {
    var deleted, rule := RuleDeleted(k, f, want.priority), FwRule(want.priority, want.mark, want.table);
    NothingShown(want);
    RemovedAt(k.rules, want.priority, want.priority);
    InsertedAt(deleted.rules, rule, want.priority);
    InAtPriority(deleted.rules, rule);
    InAtPriority(InsertRule(deleted.rules, rule), rule);
    hide RuleShown, RulesText, AtPriority, InsertRule, RemoveFirst;
  }

  /** Rules at other priorities stay as they are and in order. */
  lemma RuleStepOthers(k: State, f: Faults, want: IPRuleSpec, n: int)
    requires n != want.priority
    ensures AtPriority(RuleStep(k, f, want).k.rules, n) == AtPriority(k.rules, n)
  {
    RemovedAt(k.rules, want.priority, n);
    InsertedAt(RuleDeleted(k, f, want.priority).rules, FwRule(want.priority, want.mark, want.table), n);
    hide RuleShown, RulesText, AtPriority, InsertRule, RemoveFirst;
  }

  lemma {:induction false} InAtPriority(rules: seq<FwRule>, r: FwRule)
    ensures r in AtPriority(rules, r.priority) <==> r in rules
  {
    if rules != [] {
      InAtPriority(rules[1..], r);
      assert rules == [rules[0]] + rules[1..];
    }
  }

  /** A list of rules is handled one by one, in order, up to the first error. */
  lemma {:induction false} RuleStepsConcat(k: State, f: Faults, a: seq<IPRuleSpec>, b: seq<IPRuleSpec>)
    ensures RuleSteps(k, f, a + b)
         == var o := RuleSteps(k, f, a); if o.ok then Plus(o.changes, RuleSteps(o.k, f, b)) else o
    ensures |a| == 1 ==> RuleSteps(k, f, a) == RuleStep(k, f, a[0])
    decreases |a|
  {
    hide RuleStep;
    if a == [] {
      assert a + b == b;
    } else {
      assert (a + b)[0] == a[0] && (a + b)[1..] == a[1..] + b;
      RuleStepsConcat(RuleStep(k, f, a[0]).k, f, a[1..], b);
      assert |a| == 1 ==> a[1..] == [];
    }
  }

  /** So are the tables. */
  lemma {:induction false} TableStepsConcat(k: State, f: Faults, a: seq<Group>, b: seq<Group>)
    ensures TableSteps(k, f, a + b)
         == var o := TableSteps(k, f, a); if o.ok then Plus(o.changes, TableSteps(o.k, f, b)) else o
    ensures |a| == 1 ==> TableSteps(k, f, a) == TableStep(k, f, a[0])
    decreases |a|
  {
    hide TableStep;
    if a == [] {
      assert a + b == b;
    } else {
      assert (a + b)[0] == a[0] && (a + b)[1..] == a[1..] + b;
      TableStepsConcat(TableStep(k, f, a[0]).k, f, a[1..], b);
      assert |a| == 1 ==> a[1..] == [];
    }
  }

  /** If the listing shows the rules, a step that reports no error ends right exactly if the rule was there or no
      lookalike was. */
  lemma RuleStepRightIff(k: State, f: Faults)
    requires !f(RuleShow(100)) && RuleSteps(k, f, [OWN_RULE_SPEC]).ok
    ensures OWN_RULE in RuleSteps(k, f, [OWN_RULE_SPEC]).k.rules <==> OWN_RULE in k.rules || !Lookalike(k.rules)
  {
    OwnRuleShownIff(k.rules);
    if OWN_RULE in k.rules {
      OwnRuleLooksAlike(k.rules);
    }
    InsertedIn(RuleDeleted(k, f, 100).rules);
    RuleStepsOne(k, f);
    hide RuleShown, RulesText, Lookalike, RemoveFirst, InsertRule;
  }

  lemma {:induction false} InsertedIn(rules: seq<FwRule>)
    ensures OWN_RULE in InsertRule(rules, OWN_RULE)
  {
    if rules != [] && OWN_RULE.priority >= rules[0].priority {
      InsertedIn(rules[1..]);
    }
  }

  lemma RuleStepsOne(k: State, f: Faults)
    ensures RuleSteps(k, f, [OWN_RULE_SPEC]) == RuleStep(k, f, OWN_RULE_SPEC)
  {
    assert [OWN_RULE_SPEC][1..] == [];
    hide RuleStep;
  }

  /** From an owned state: it stays owned, success leaves exactly the owned rule beside the foreign ones, the rule is not
      added twice, one change is counted exactly if it is added, and only a failing call makes the step fail. */
  lemma RuleStepOwned(k: State, f: Faults)
    requires OwnedRules(k.rules)
    ensures var o := RuleSteps(k, f, [OWN_RULE_SPEC]);
            && o.k == k.(rules := o.k.rules) && OwnedRules(o.k.rules)
            && ForeignPart(o.k.rules) == ForeignPart(k.rules)
            && (o.ok ==> OwnPart(o.k.rules) == [OWN_RULE])
            && (OwnPart(k.rules) == [OWN_RULE] && !f(RuleShow(100)) ==> o == Outcome(k, 0, true))
            && o.changes == (if o.ok && (OwnPart(k.rules) != [OWN_RULE] || f(RuleShow(100))) then 1 else 0)
            && (!f(RuleShow(100)) && !f(RuleDel(100)) && !f(RuleAdd(100)) ==> o.ok)
  {
    OwnedShownIff(k.rules);
    NothingShown(OWN_RULE_SPEC);
    var deleted := RuleDeleted(k, f, 100);
    RemovedParts(k.rules);
    InsertedParts(deleted.rules);
    InOwnPart(deleted.rules, OWN_RULE);
    InOwnPart(k.rules, OWN_RULE);
    RuleStepsOne(k, f);
    hide RuleShown, RulesText, Lookalike, RemoveFirst, InsertRule, OwnPart, ForeignPart;
  }

  // ----- routes

  ghost function WantSet(iface: string, up: bool): set<Route> {
    if up then {Route(Dev(iface), 10), BLACKHOLE} else {BLACKHOLE}
  }

  ghost function RouteSet(k: State): set<Route> {
    set r | r in RoutesIn(k, 100)
  }

  lemma GroupFirst(groups: seq<Group>, rt: RouteSpec, rest: seq<RouteSpec>)
    ensures GroupAll(groups, [rt] + rest) == GroupAll(AddToGroups(groups, rt), rest)
  {
    assert ([rt] + rest)[1..] == rest;
  }

  lemma GroupsOfRoutes(iface: string, up: bool)
    ensures var want := RoutesForTunnel(100, iface, up); GroupAll([], want) == [Group(100, want)]
  {
    var want := RoutesForTunnel(100, iface, up);
    if up {
      GroupFirst([], want[0], [want[1]]);
      GroupFirst([Group(100, [want[0]])], want[1], []);
      assert want == [want[0]] + [want[1]] && [want[1]] == [want[1]] + [];
    } else {
      GroupFirst([], want[0], []);
      assert want == [want[0]] + [];
    }
  }

  ghost function KeySet(rs: set<Route>): set<string> {
    set r | r in rs :: KeyOfRoute(r)
  }

  lemma DesiredKeysOf(iface: string, up: bool)
    ensures DesiredKeys(RoutesForTunnel(100, iface, up)) == KeySet(WantSet(iface, up))
  {
    hide Itoa;
    var want := RoutesForTunnel(100, iface, up);
    assert RouteKey(want[|want| - 1]) == KeyOfRoute(BLACKHOLE);
    if up {
      assert RouteKey(want[0]) == KeyOfRoute(Route(Dev(iface), 10));
      assert DesiredKeys(want) == {RouteKey(want[0]), RouteKey(want[1])} by {
        assert want[0] in want && want[1] in want;
      }
    } else {
      assert DesiredKeys(want) == {RouteKey(want[0])} by {
        assert want[0] in want;
      }
    }
  }

  lemma KeySetsEqual(a: set<Route>, b: set<Route>)
    ensures KeySet(a) == KeySet(b) <==> a == b
  {
    hide KeySet;
    if KeySet(a) == KeySet(b) {
      KeysInclude(a, b);
      KeysInclude(b, a);
    }
  }

  lemma KeysInclude(a: set<Route>, b: set<Route>)
    requires KeySet(a) <= KeySet(b)
    ensures a <= b
  {
    hide KeyOfRoute;
    forall r | r in a ensures r in b {
      assert KeyOfRoute(r) in KeySet(a);
      var q :| q in b && KeyOfRoute(q) == KeyOfRoute(r);
      KeyInjective(r, q);
    }
  }

  /** The comparison of the listing decides whether the table holds exactly the wanted routes. */
  lemma RoutesMatchIff(k: State, iface: string, up: bool)
    requires OwnedRoutes(k)
    ensures TableRoutesMatchSpec(RoutesText(RoutesIn(k, 100)), RoutesForTunnel(100, iface, up))
       <==> RouteSet(k) == WantSet(iface, up)
  {
    var rs := RoutesIn(k, 100);
    forall i | 0 <= i < |rs| ensures ValidRoute(rs[i]) {
      assert OwnedRoute(rs[i], k.links);
    }
    ParseListed(rs);
    DesiredKeysOf(iface, up);
    hide KeysOfLines, RoutesText, KeyOfRoute, DesiredKeys, WantSet;
    KeySetsEqual(RouteSet(k), WantSet(iface, up));
    assert KeysOf(rs) == KeySet(RouteSet(k));
  }

  lemma NoRoutesShown(iface: string, up: bool)
    ensures !TableRoutesMatchSpec("", RoutesForTunnel(100, iface, up))
  {
    var want := RoutesForTunnel(100, iface, up);
    assert [""][1..] == [] && KeysOfLines([""]) == {};
    assert RouteKey(want[0]) in DesiredKeys(want) by {
      assert want[0] in want;
    }
  }

  /** Adding the wanted routes one by one: they are there, and a stale route stays only if no wanted one has its metric. */
  lemma RouteAddsOwned(k: State, f: Faults, iface: string, up: bool)
    requires OwnedRoutes(k)
    ensures var a := RouteAdds(k, f, RoutesForTunnel(100, iface, up));
            && a.0 == k.(routes := a.0.routes)
            && (forall t :: t != 100 ==> RoutesIn(a.0, t) == RoutesIn(k, t))
            && OwnedRoutes(a.0)
            && (a.1 ==> forall r :: r in RoutesIn(a.0, 100) <==>
                  r in WantSet(iface, up) || (!up && r in RoutesIn(k, 100) && r.metric != 100))
  {
    var want := RoutesForTunnel(100, iface, up);
    var dev := Route(Dev(iface), 10);
    assert RouteOf(want[|want| - 1]) == BLACKHOLE;
    if up {
      assert RouteOf(want[0]) == dev && want == [want[0]] + [want[1]] && [want[1]] == [want[1]] + [];
      RouteAddsFirst(k, f, want[0], [want[1]]);
      var one := RouteReplaced(k, f, 100, dev);
      ReplacedOwned(k, f, dev);
      RouteAddsFirst(one.0, f, want[1], []);
      ReplacedOwned(one.0, f, BLACKHOLE);
      hide RouteAdds, RouteReplaced;
      assert OwnedRoutes(one.0) && OwnedRoutes(k);
    } else {
      assert want == [want[0]] + [];
      RouteAddsFirst(k, f, want[0], []);
      ReplacedOwned(k, f, BLACKHOLE);
    }
  }

  lemma RouteAddsFirst(k: State, f: Faults, rt: RouteSpec, rest: seq<RouteSpec>)
    ensures RouteAdds(k, f, [rt] + rest)
         == var (next, ok) := RouteReplaced(k, f, rt.table, RouteOf(rt)); if ok then RouteAdds(next, f, rest) else (next, false)
    ensures RouteAdds(k, f, []) == (k, true)
  {
    assert ([rt] + rest)[1..] == rest;
  }

  lemma ReplacedOwned(k: State, f: Faults, n: Route)
    requires OwnedRoutes(k) && (n == BLACKHOLE || (n.hop.Dev? && n.metric == 10))
    ensures var a := RouteReplaced(k, f, 100, n);
            && a.0 == k.(routes := a.0.routes)
            && (forall t :: t != 100 ==> RoutesIn(a.0, t) == RoutesIn(k, t))
            && OwnedRoutes(a.0)
            && (a.1 ==> forall r :: r in RoutesIn(a.0, 100) <==> r == n || (r in RoutesIn(k, 100) && r.metric != n.metric))
  {
    hide SetRoute;
    forall r ensures r in SetRoute(RoutesIn(k, 100), n) <==> r == n || (r in RoutesIn(k, 100) && r.metric != n.metric) {
      InSetRoute(RoutesIn(k, 100), n, r);
    }
  }

  /** The routing step for table 100 from an owned state. */
  lemma TableStepOwned(k: State, f: Faults, iface: string, up: bool)
    requires OwnedRoutes(k)
    ensures var o := TableStep(k, f, Group(100, RoutesForTunnel(100, iface, up)));
            && o.k == k.(routes := o.k.routes)
            && (forall t :: t != 100 ==> RoutesIn(o.k, t) == RoutesIn(k, t))
            && OwnedRoutes(o.k)
            && (o.ok ==> BLACKHOLE in RoutesIn(o.k, 100))
            && (o.ok ==> (RouteSet(o.k) == WantSet(iface, up)
                          <==> !f(RouteFlush(100)) || up || forall r :: r in RoutesIn(k, 100) ==> r == BLACKHOLE))
            && (RouteSet(k) == WantSet(iface, up) && !f(RouteShow(100)) ==> o == Outcome(k, 0, true))
            && o.changes == (if o.ok && (RouteSet(k) != WantSet(iface, up) || f(RouteShow(100))) then 1 else 0)
  {
    var want := RoutesForTunnel(100, iface, up);
    RoutesMatchIff(k, iface, up);
    NoRoutesShown(iface, up);
    hide TableRoutesMatchSpec, RoutesText, RouteAdds, RoutesForTunnel;
    var g := Group(100, want);
    var o := TableStep(k, f, g);
    if TableRoutesMatchSpec(RoutesShown(k, f, 100), want) {
      assert RouteSet(k) == WantSet(iface, up);
      assert BLACKHOLE in RouteSet(k);
      assert !up ==> forall r :: r in RoutesIn(k, 100) ==> r in RouteSet(k);
    } else {
      var flushed := RoutesFlushed(k, f, 100);
      assert OwnedRoutes(flushed);
      RouteAddsOwned(flushed, f, iface, up);
      if o.ok {
        AddedIff(k, flushed, o.k, f, iface, up);
      }
    }
  }

  lemma AddedIff(k: State, flushed: State, after: State, f: Faults, iface: string, up: bool)
    requires OwnedRoutes(k) && flushed == RoutesFlushed(k, f, 100)
    requires forall r :: r in RoutesIn(after, 100) <==>
               r in WantSet(iface, up) || (!up && r in RoutesIn(flushed, 100) && r.metric != 100)
    ensures BLACKHOLE in RoutesIn(after, 100)
    ensures RouteSet(after) == WantSet(iface, up)
       <==> !f(RouteFlush(100)) || up || forall r :: r in RoutesIn(k, 100) ==> r == BLACKHOLE
  {
    assert BLACKHOLE in WantSet(iface, up);
    if !f(RouteFlush(100)) {
      assert RoutesIn(flushed, 100) == [];
    }
    if !up && f(RouteFlush(100)) {
      forall r | r in RoutesIn(k, 100) && r != BLACKHOLE ensures r in RouteSet(after) && r !in WantSet(iface, up) {
        assert OwnedRoute(r, k.links);
      }
    }
    assert forall r :: r in RouteSet(after) <==> r in RoutesIn(after, 100);
  }
}
