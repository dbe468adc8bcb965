/** Listing "ip rule show" and the three substring tests that look for the owned rule in it. */
module RuleListing {
  import opened Text
  import opened Policy
  import opened Routing

  // ----- the listing

  /** The tables that every system names are listed by name. */
  function TableText(n: int): string {
    if n == 253 then "default" else if n == 254 then "main" else if n == 255 then "local" else Decimal(n)
  }

  function RuleBody(r: FwRule): string {
    Decimal(r.priority) + ":" + "\tfrom all " + "fwmark 0x" + (Hex(r.mark) + " lookup " + TableText(r.table))
  }

  /** The rules that every system has: for local before those with a mark, for main and default after them. */
  function SystemBody(priority: string, name: string): string {
    priority + ":" + "\tfrom all " + "lookup " + name
  }

  function Bodies(rules: seq<FwRule>): (bodies: seq<string>)
    ensures |bodies| == |rules| && forall i :: 0 <= i < |rules| ==> bodies[i] == RuleBody(rules[i])
  {
    seq(|rules|, i requires 0 <= i < |rules| => RuleBody(rules[i]))
  }

  function Lined(bodies: seq<string>): string {
    if bodies == [] then "" else bodies[0] + "\n" + Lined(bodies[1..])
  }

  const LOCAL := SystemBody("0", "local")
  const MAIN := SystemBody("32766", "main")
  const DEFAULT := SystemBody("32767", "default")

  function RulesText(rules: seq<FwRule>): string {
    Lined([LOCAL] + Bodies(rules) + [MAIN, DEFAULT])
  }

  /** The three independent substring tests. */
  predicate RuleShown(out: string, want: IPRuleSpec) {
    && Contains(out, Decimal(want.priority) + ":")
    && Contains(out, "fwmark 0x" + Hex(want.mark))
    && Contains(out, "lookup " + Decimal(want.table))
  }

  // ----- searching in lines

  lemma OccursWith(s: string, t: string, i: nat, k: nat)
    requires OccursAt(s, t, i) && i <= k < i + |t|
    ensures s[k] in t
  {
    assert s[i..i + |t|][k - i] == s[k];
  }

  lemma SliceOfTail(s: string, m: nat, k: nat, n: nat)
    requires m + k + n <= |s|
    ensures s[m..][k..k + n] == s[m + k..m + k + n]
  {
  }

  lemma ContainsSplit(a: string, b: string, t: string)
    requires '\n' !in t && t != ""
    ensures Contains(a + "\n" + b, t) <==> Contains(a, t) || Contains(b, t)
  {
    var s := a + "\n" + b;
    if i :| 0 <= i <= |a| && OccursAt(a, t, i) {
      assert s[i..i + |t|] == t;
      assert OccursAt(s, t, i);
    }
    if i :| 0 <= i <= |b| && OccursAt(b, t, i) {
      assert s[|a| + 1..] == b;
      SliceOfTail(s, |a| + 1, i, |t|);
      assert OccursAt(s, t, |a| + 1 + i);
    }
    if i :| 0 <= i <= |s| && OccursAt(s, t, i) {
      OccursInPart(a, b, t, i);
    }
  }

  lemma OccursInPart(a: string, b: string, t: string, i: nat)
    requires '\n' !in t && t != "" && OccursAt(a + "\n" + b, t, i)
    ensures Contains(a, t) || Contains(b, t)
  {
    var s := a + "\n" + b;
    assert s[|a|] == '\n' && s[..|a|] == a && s[|a| + 1..] == b;
    if i <= |a| < i + |t| {
      OccursWith(s, t, i, |a|);
      assert false;
    } else if i < |a| {
      SliceOfHead(s, |a|, i, |t|);
      assert OccursAt(a, t, i);
    } else {
      SliceOfTail(s, |a| + 1, i - |a| - 1, |t|);
      assert OccursAt(b, t, i - |a| - 1);
    }
  }

  lemma SliceOfHead(s: string, m: nat, k: nat, n: nat)
    requires k + n <= m <= |s|
    ensures s[..m][k..k + n] == s[k..k + n]
  {
  }

  lemma {:induction false} LinedContains(bodies: seq<string>, t: string)
    requires '\n' !in t && t != ""
    ensures Contains(Lined(bodies), t) <==> exists i :: 0 <= i < |bodies| && Contains(bodies[i], t)
  {
    if bodies != [] {
      LinedContains(bodies[1..], t);
      ContainsSplit(bodies[0], Lined(bodies[1..]), t);
      hide Contains;
      assert forall i :: 0 <= i < |bodies[1..]| ==> bodies[1..][i] == bodies[i + 1];
      if i :| 0 <= i < |bodies| && Contains(bodies[i], t) {
        assert i > 0 ==> Contains(bodies[1..][i - 1], t);
      }
      if i :| 0 <= i < |bodies[1..]| && Contains(bodies[1..][i], t) {
        assert Contains(bodies[i + 1], t);
      }
    }
  }

  lemma TextContains(rules: seq<FwRule>, t: string)
    requires '\n' !in t && t != ""
    ensures Contains(RulesText(rules), t)
       <==> Contains(LOCAL, t) || Contains(MAIN, t) || Contains(DEFAULT, t) || InSomeRule(rules, t)
  {
    hide Contains, LOCAL, MAIN, DEFAULT, RuleBody;
    var all := [LOCAL] + Bodies(rules) + [MAIN, DEFAULT];
    var n := |rules|;
    LinedContains(all, t);
    assert all[0] == LOCAL && all[n + 1] == MAIN && all[n + 2] == DEFAULT;
    assert forall i :: 0 < i <= n ==> all[i] == RuleBody(rules[i - 1]);
    if i :| 0 <= i < |rules| && Contains(RuleBody(rules[i]), t) {
      assert Contains(all[i + 1], t);
    }
  }

  ghost predicate InSomeRule(rules: seq<FwRule>, t: string) {
    exists i :: 0 <= i < |rules| && Contains(RuleBody(rules[i]), t)
  }

  // ----- searching in one line

  /** A text with a character that the line has only once is there or nowhere. */
  lemma PivotDecides(s: string, t: string, k: nat, j: nat)
    requires k < |s| && j < |t| && s[k] == t[j] && forall i :: 0 <= i < |s| && s[i] == t[j] ==> i == k
    ensures Contains(s, t) <==> k >= j && OccursAt(s, t, k - j)
  {
    if i :| 0 <= i <= |s| && OccursAt(s, t, i) {
      assert s[i..i + |t|][j] == t[j];
    }
  }

  /** A number before the only colon: the text ends with the wanted one. */
  lemma BeforeColon(p: string, rest: string, w: string)
    requires ':' !in p && ':' !in rest && ':' !in w
    ensures Contains(p + ":" + rest, w + ":") <==> HasSuffix(p, w)
  {
    var s, t := p + ":" + rest, w + ":";
    assert s[|p|] == ':' && t[|w|] == ':';
    PivotDecides(s, t, |p|, |w|);
    if |p| >= |w| {
      assert s[|p| - |w|..|p| - |w| + |t|] == p[|p| - |w|..] + ":";
      assert p[|p| - |w|..] + ":" == w + ":" <==> p[|p| - |w|..] == w by { SameFront(p[|p| - |w|..], w); }
    }
  }

  lemma SameFront(a: string, b: string)
    ensures a + ":" == b + ":" <==> a == b
  {
    assert (a + ":")[..|a|] == a && (b + ":")[..|b|] == b;
    assert |a + ":"| == |a| + 1 && |b + ":"| == |b| + 1;
  }

  /** A word after a key that is there only once: the text starts with the wanted one. */
  lemma AfterKey(a: string, key: string, v: string, w: string, j: nat)
    requires j < |key| && key[j] !in a && key[j] !in v
    requires forall i :: 0 <= i < |key| && key[i] == key[j] ==> i == j
    ensures Contains(a + key + v, key + w) <==> HasPrefix(v, w)
  {
    var s, t, k := a + key + v, key + w, |a| + j;
    assert s[k] == key[j] && t[j] == key[j];
    PivotDecides(s, t, k, j);
    if |w| <= |v| {
      assert s[|a|..|a| + |t|] == key + v[..|w|];
      assert key + v[..|w|] == key + w <==> v[..|w|] == w by {
        assert (key + v[..|w|])[|key|..] == v[..|w|] && (key + w)[|key|..] == w;
      }
    }
  }

  // ----- the characters of numbers

  lemma DecimalChars(n: int)
    ensures forall c :: c in Decimal(n) ==> IsDigit(c) || c == '-'
    ensures IsDigit(Decimal(n)[0]) || Decimal(n)[0] == '-'
  {
  }

  lemma TableChars(n: int)
    ensures forall c :: c in TableText(n) ==> IsDigit(c) || c == '-' || ('a' <= c <= 'u' && c != 'p')
  {
    DecimalChars(n);
    hide Decimal;
    assert forall c :: c in "default" || c in "main" || c in "local" ==> 'a' <= c <= 'u' && c != 'p';
  }

  lemma {:induction false} HexChars(n: nat)
    ensures Hex(n) != "" && forall c :: c in Hex(n) ==> IsDigit(c) || 'a' <= c <= 'f'
  {
    if n >= 16 {
      HexChars(n / 16);
    }
  }

  // ----- the tests

  ghost predicate PriorityEnds(rules: seq<FwRule>, w: string) {
    exists i :: 0 <= i < |rules| && HasSuffix(Decimal(rules[i].priority), w)
  }

  ghost predicate MarkStarts(rules: seq<FwRule>, w: string) {
    exists i :: 0 <= i < |rules| && HasPrefix(Hex(rules[i].mark), w)
  }

  ghost predicate TableStarts(rules: seq<FwRule>, w: string) {
    exists i :: 0 <= i < |rules| && HasPrefix(TableText(rules[i].table), w)
  }

  lemma Regroup3(a: string, b: string, c: string, d: string)
    ensures a + b + c + d == a + (b + c + d)
  {
  }

  lemma RestHasNo(r: FwRule, c: char)
    requires c == ':'
    ensures c !in "\tfrom all " + "fwmark 0x" + (Hex(r.mark) + " lookup " + TableText(r.table))
  {
    TableChars(r.table);
    HexChars(r.mark);
    hide Decimal, Hex, TableText;
    assert c !in "\tfrom all " && c !in "fwmark 0x" && c !in " lookup ";
  }

  lemma PriorityInBody(r: FwRule, n: int)
    ensures Contains(RuleBody(r), Decimal(n) + ":") <==> HasSuffix(Decimal(r.priority), Decimal(n))
  {
    DecimalChars(r.priority);
    DecimalChars(n);
    hide Contains, Decimal, Hex, TableText, HasSuffix;
    var p, rest := Decimal(r.priority), "\tfrom all " + "fwmark 0x" + (Hex(r.mark) + " lookup " + TableText(r.table));
    RestHasNo(r, ':');
    assert RuleBody(r) == p + ":" + rest by {
      Regroup3(p + ":", "\tfrom all ", "fwmark 0x", Hex(r.mark) + " lookup " + TableText(r.table));
    }
    BeforeColon(p, rest, Decimal(n));
  }

  lemma MarkInBody(r: FwRule, m: Mark)
    ensures Contains(RuleBody(r), "fwmark 0x" + Hex(m)) <==> HasPrefix(Hex(r.mark), Hex(m))
  {
    DecimalChars(r.priority);
    TableChars(r.table);
    HexChars(r.mark);
    HexChars(m);
    hide Contains, Decimal, Hex, TableText;
    var before, after := Decimal(r.priority) + ":" + "\tfrom all ", " lookup " + TableText(r.table);
    assert 'w' !in ":" && 'w' !in "\tfrom all " && 'w' !in " lookup ";
    AfterKey(before, "fwmark 0x", Hex(r.mark) + after, Hex(m), 1);
    assert RuleBody(r) == before + "fwmark 0x" + (Hex(r.mark) + after);
    StopsAtBlank(Hex(r.mark), after, Hex(m));
  }

  lemma StopsAtBlank(v: string, after: string, w: string)
    requires ' ' !in w && after != "" && after[0] == ' '
    ensures HasPrefix(v + after, w) <==> HasPrefix(v, w)
  {
    var s := v + after;
    assert s[|v|] == ' ';
    PrefixWith(s, w, |v|);
  }

  lemma PrefixWith(s: string, w: string, k: nat)
    requires k < |s|
    ensures HasPrefix(s, w) && k < |w| ==> s[k] in w
  {
  }

  lemma FrontHasNoP(r: FwRule)
    ensures 'p' !in Decimal(r.priority) + ":" + "\tfrom all " + "fwmark 0x" + Hex(r.mark) + " "
  {
    DecimalChars(r.priority);
    HexChars(r.mark);
    hide Decimal, Hex;
    assert 'p' !in "\tfrom all " && 'p' !in "fwmark 0x" && 'p' !in ":" && 'p' !in " ";
  }

  lemma Regroup2(a: string, b: string, c: string, d: string, e: string)
    ensures a + (b + (c + d) + e) == a + b + c + d + e
  {
  }

  lemma TableInBody(r: FwRule, n: int)
    ensures Contains(RuleBody(r), "lookup " + Decimal(n)) <==> HasPrefix(TableText(r.table), Decimal(n))
  {
    TableChars(r.table);
    hide Contains, Decimal, Hex, TableText, HasPrefix;
    assert " lookup " == " " + "lookup ";
    var before := Decimal(r.priority) + ":" + "\tfrom all " + "fwmark 0x" + Hex(r.mark) + " ";
    FrontHasNoP(r);
    AfterKey(before, "lookup ", TableText(r.table), Decimal(n), 5);
    assert RuleBody(r) == before + "lookup " + TableText(r.table) by {
      Regroup2(Decimal(r.priority) + ":" + "\tfrom all " + "fwmark 0x", Hex(r.mark), " ", "lookup ", TableText(r.table));
    }
  }

  lemma SystemPriority(priority: string, name: string, n: int)
    requires AllDigits(priority) && ':' !in name
    ensures Contains(SystemBody(priority, name), Decimal(n) + ":") <==> HasSuffix(priority, Decimal(n))
  {
    DecimalChars(n);
    hide Decimal, Contains, HasSuffix;
    var rest := "\tfrom all " + "lookup " + name;
    assert ':' !in "\tfrom all " && ':' !in "lookup ";
    assert SystemBody(priority, name) == priority + ":" + rest;
    BeforeColon(priority, rest, Decimal(n));
  }

  lemma SystemTable(priority: string, name: string, n: int)
    requires AllDigits(priority) && name != "" && 'a' <= name[0] <= 'z' && 'p' !in name
    ensures !Contains(SystemBody(priority, name), "lookup " + Decimal(n))
  {
    DecimalChars(n);
    hide Decimal, Contains;
    var front := priority + ":" + "\tfrom all ";
    assert 'p' !in "\tfrom all " && 'p' !in ":";
    AfterKey(front, "lookup ", name, Decimal(n), 5);
    assert SystemBody(priority, name) == front + "lookup " + name;
  }

  lemma SystemMark(priority: string, name: string, m: Mark)
    requires AllDigits(priority) && 'w' !in name
    ensures !Contains(SystemBody(priority, name), "fwmark 0x" + Hex(m))
  {
    hide Hex, Contains;
    assert 'w' !in "\tfrom all " && 'w' !in "lookup " && 'w' !in ":";
    NoLetterNoKey(SystemBody(priority, name), "fwmark 0x" + Hex(m), 1);
  }

  lemma InSystemBody(priority: string, name: string, want: IPRuleSpec)
    requires AllDigits(priority) && name != "" && 'a' <= name[0] <= 'z'
    requires ':' !in name && 'w' !in name && 'p' !in name
    ensures var body := SystemBody(priority, name);
            && (Contains(body, Decimal(want.priority) + ":") <==> HasSuffix(priority, Decimal(want.priority)))
            && !Contains(body, "fwmark 0x" + Hex(want.mark)) && !Contains(body, "lookup " + Decimal(want.table))
  {
    hide Decimal, Hex, Contains, HasSuffix, SystemBody;
    SystemPriority(priority, name, want.priority);
    SystemTable(priority, name, want.table);
    SystemMark(priority, name, want.mark);
  }

  lemma NoLetterNoKey(s: string, t: string, j: nat)
    requires j < |t| && t[j] !in s
    ensures !Contains(s, t)
  {
    forall i | 0 <= i <= |s| ensures !OccursAt(s, t, i) {
      assert i + |t| <= |s| ==> s[i..i + |t|][j] == s[i + j];
    }
  }

  lemma NoBreaks(want: IPRuleSpec)
    ensures '\n' !in Decimal(want.priority) + ":" && '\n' !in "fwmark 0x" + Hex(want.mark)
    ensures '\n' !in "lookup " + Decimal(want.table)
  {
    DecimalChars(want.priority);
    DecimalChars(want.table);
    HexChars(want.mark);
    hide Decimal, Hex;
    assert '\n' !in "fwmark 0x" && '\n' !in "lookup ";
  }

  /** The tests on the listing of any rules: some rule's priority ends like the wanted one, some rule's mark starts like
      it, and some rule's table does; they need not be one rule. */
  lemma RuleShownIff(rules: seq<FwRule>, want: IPRuleSpec)
    ensures RuleShown(RulesText(rules), want)
       <==> && (PriorityEnds(rules, Decimal(want.priority)) || SystemPriorityEnds(Decimal(want.priority)))
            && MarkStarts(rules, Hex(want.mark)) && TableStarts(rules, Decimal(want.table))
  {
    NoBreaks(want);
    InSystemBody("0", "local", want);
    InSystemBody("32766", "main", want);
    InSystemBody("32767", "default", want);
    hide Decimal, Hex, Contains, HasSuffix, HasPrefix, SystemBody, RuleBody, RulesText, PriorityEnds, MarkStarts, TableStarts,
      InSomeRule;
    TextContains(rules, Decimal(want.priority) + ":");
    TextContains(rules, "fwmark 0x" + Hex(want.mark));
    TextContains(rules, "lookup " + Decimal(want.table));
    InRulesIff(rules, want);
  }

  lemma InRulesIff(rules: seq<FwRule>, want: IPRuleSpec)
    ensures InSomeRule(rules, Decimal(want.priority) + ":") <==> PriorityEnds(rules, Decimal(want.priority))
    ensures InSomeRule(rules, "fwmark 0x" + Hex(want.mark)) <==> MarkStarts(rules, Hex(want.mark))
    ensures InSomeRule(rules, "lookup " + Decimal(want.table)) <==> TableStarts(rules, Decimal(want.table))
  {
    var p, m, t := Decimal(want.priority) + ":", "fwmark 0x" + Hex(want.mark), "lookup " + Decimal(want.table);
    hide Decimal, Hex, Contains, HasSuffix, HasPrefix, RuleBody, TableText;
    forall i | 0 <= i < |rules|
      ensures Contains(RuleBody(rules[i]), p) <==> HasSuffix(Decimal(rules[i].priority), Decimal(want.priority))
      ensures Contains(RuleBody(rules[i]), m) <==> HasPrefix(Hex(rules[i].mark), Hex(want.mark))
      ensures Contains(RuleBody(rules[i]), t) <==> HasPrefix(TableText(rules[i].table), Decimal(want.table))
    {
      PriorityInBody(rules[i], want.priority);
      MarkInBody(rules[i], want.mark);
      TableInBody(rules[i], want.table);
    }
  }

  ghost predicate SystemPriorityEnds(w: string) {
    HasSuffix("0", w) || HasSuffix("32766", w) || HasSuffix("32767", w)
  }

  // ----- the owned rule

  const OWN_RULE: FwRule := FwRule(DEFAULT_RULE_PRIORITY, DEFAULT_MARK, DEFAULT_TABLE_ID)
  const OWN_RULE_SPEC: IPRuleSpec := IPRuleSpec(DEFAULT_RULE_PRIORITY, DEFAULT_MARK, DEFAULT_TABLE_ID)

  /** Among the rules, not necessarily in one, are a priority ending in 100, a mark starting with 1 and a table starting
      with 100. */
  ghost predicate Lookalike(rules: seq<FwRule>) {
    PriorityEnds(rules, "100") && MarkStarts(rules, "1") && TableStarts(rules, "100")
  }

  lemma DefaultTexts()
    ensures Decimal(DEFAULT_RULE_PRIORITY) == "100" && Decimal(DEFAULT_TABLE_ID) == "100" && Hex(DEFAULT_MARK) == "1"
    ensures !SystemPriorityEnds("100")
  {
    assert Itoa(100) == "100";
  }

  /** With the default numbers the tests pass exactly on a lookalike. */
  lemma OwnRuleShownIff(rules: seq<FwRule>)
    ensures RuleShown(RulesText(rules), OWN_RULE_SPEC) <==> Lookalike(rules)
  {
    DefaultTexts();
    RuleShownIff(rules, OWN_RULE_SPEC);
    hide RuleShown, RulesText, PriorityEnds, MarkStarts, TableStarts, SystemPriorityEnds, Decimal, Hex;
  }

  lemma OwnRuleLooksAlike(rules: seq<FwRule>)
    requires OWN_RULE in rules
    ensures Lookalike(rules)
  {
    DefaultTexts();
    hide Decimal, Hex;
    var i :| 0 <= i < |rules| && rules[i] == OWN_RULE;
    assert HasSuffix(Decimal(rules[i].priority), "100");
    assert HasPrefix(Hex(rules[i].mark), "1");
    assert HasPrefix(Decimal(rules[i].table), "100");
  }

  /** The tests are right about the owned rule exactly if it is there or no lookalike is. */
  lemma OwnTestRightIff(rules: seq<FwRule>)
    ensures (RuleShown(RulesText(rules), OWN_RULE_SPEC) <==> OWN_RULE in rules)
       <==> OWN_RULE in rules || !Lookalike(rules)
  {
    OwnRuleShownIff(rules);
    if OWN_RULE in rules {
      OwnRuleLooksAlike(rules);
    }
  }

  lemma ForeignTexts()
    ensures HasSuffix(Decimal(100), "100") && HasPrefix(Hex(16), "1") && HasPrefix(TableText(1000), "100")
  {
    assert Itoa(1000) == "1000" && Itoa(100) == "100";
    assert Hex(16) == "10";
  }

  lemma OneLookalike(r: FwRule)
    requires HasSuffix(Decimal(r.priority), "100") && HasPrefix(Hex(r.mark), "1") && HasPrefix(TableText(r.table), "100")
    ensures Lookalike([r])
  {
    hide Decimal, Hex, TableText, HasSuffix, HasPrefix;
    assert [r][0] == r;
  }

  const FOREIGN: FwRule := FwRule(100, 16, 1000)

  /** A concrete foreign rule that passes all three tests although the wanted rule is missing. */
  lemma ForeignRuleShown()
    ensures OWN_RULE !in [FOREIGN] && RuleShown(RulesText([FOREIGN]), OWN_RULE_SPEC)
  {
    ForeignTexts();
    hide Hex, Decimal, RuleShown, RulesText, HasSuffix, HasPrefix, Lookalike;
    OneLookalike(FOREIGN);
    OwnRuleShownIff([FOREIGN]);
  }

  // ----- owned and foreign rules

  ghost function OwnPart(rules: seq<FwRule>): seq<FwRule> {
    if rules == [] then [] else (if rules[0].priority == DEFAULT_RULE_PRIORITY then [rules[0]] else []) + OwnPart(rules[1..])
  }

  /** The rules at other priorities, in order. */
  ghost function ForeignPart(rules: seq<FwRule>): seq<FwRule> {
    if rules == [] then [] else (if rules[0].priority == DEFAULT_RULE_PRIORITY then [] else [rules[0]]) + ForeignPart(rules[1..])
  }

  /** At the owned priority there is nothing or the owned rule, and the foreign rules do not look like it. */
  ghost predicate OwnedRules(rules: seq<FwRule>) {
    (OwnPart(rules) == [] || OwnPart(rules) == [OWN_RULE]) && !Lookalike(ForeignPart(rules))
  }

  lemma {:induction false} InOwnPart(rules: seq<FwRule>, r: FwRule)
    ensures r in OwnPart(rules) <==> r in rules && r.priority == DEFAULT_RULE_PRIORITY
  {
    if rules != [] {
      InOwnPart(rules[1..], r);
      assert rules == [rules[0]] + rules[1..];
    }
  }

  lemma {:induction false} NothingOwn(rules: seq<FwRule>)
    ensures OwnPart(rules) == [] ==> ForeignPart(rules) == rules
  {
    if rules != [] && OwnPart(rules) == [] {
      NothingOwn(rules[1..]);
      assert rules == [rules[0]] + rules[1..];
    }
  }

  /** Where only owned rules and no lookalikes are, the tests are right. */
  lemma OwnedShownIff(rules: seq<FwRule>)
    requires OwnedRules(rules)
    ensures RuleShown(RulesText(rules), OWN_RULE_SPEC) <==> OwnPart(rules) == [OWN_RULE]
  {
    hide RuleShown, RulesText, Lookalike;
    OwnTestRightIff(rules);
    InOwnPart(rules, OWN_RULE);
    NothingOwn(rules);
  }
}
