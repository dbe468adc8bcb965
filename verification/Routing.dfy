/** Policy routing: routes and rules of the kernel, the text that listing routes shows, and the
  comparison of that text with what is wanted. */
module Routing {
  import opened Wrappers
  import opened Text
  import opened Policy

  // ----- the kernel's side

  datatype Hop = Blackhole | Dev(name: string)

  /** A default route of one table; 0 is the kernel's own metric. */
  datatype Route = Route(hop: Hop, metric: nat)

  datatype FwRule = FwRule(priority: int, mark: Mark, table: int)

  /** Interface names: no white space. */
  predicate ValidName(name: string) {
    name != "" && NoSpace(name)
  }

  predicate ValidRoute(r: Route) {
    (r.hop.Dev? ==> ValidName(r.hop.name)) && r.metric < 0x8000_0000
  }

  /** "ip route replace": the route takes the place of one with the same metric. */
  function SetRoute(rs: seq<Route>, r: Route): seq<Route> {
    Without(rs, r.metric) + [r]
  }

  function Without(rs: seq<Route>, metric: nat): seq<Route> {
    if rs == [] then [] else (if rs[0].metric == metric then [] else [rs[0]]) + Without(rs[1..], metric)
  }

  /** The routes that a lost interface takes with it are gone. */
  function WithoutDev(rs: seq<Route>, name: string): seq<Route> {
    if rs == [] then [] else (if rs[0].hop == Dev(name) then [] else [rs[0]]) + WithoutDev(rs[1..], name)
  }

  /** The route of least metric. */
  function Best(rs: seq<Route>): Option<Route> {
    if rs == [] then None
    else
      match Best(rs[1..])
      case None => Some(rs[0])
      case Some(r) => if r.metric < rs[0].metric then Some(r) else Some(rs[0])
  }

  // ----- listing routes

  /** The words of one line of "ip route show table N". */
  function RouteWords(r: Route): seq<string> {
    (match r.hop
     case Blackhole => ["blackhole", "default"]
     case Dev(name) => ["default", "dev", name])
    + (if r.metric > 0 then ["metric", Itoa(r.metric)] else [])
  }

  /** The line ends in a blank. */
  function RouteLine(r: Route): string {
    Join(RouteWords(r), ' ') + " "
  }

  function RoutesText(rs: seq<Route>): string {
    if rs == [] then "" else RouteLine(rs[0]) + "\n" + RoutesText(rs[1..])
  }

  // ----- routing.go

  function RouteKey(rt: RouteSpec): string {
    if rt.blackhole then "blackhole|default|metric=" + Decimal(rt.metric)
    else "dev=" + rt.device + "|default|metric=" + Decimal(rt.metric)
  }

  /** The metric loop: the last field after a "metric" field counts. */
  function MetricOf(fields: seq<string>, metric: int): int {
    if |fields| < 2 then metric
    else MetricOf(fields[1..], if fields[0] == "metric" then Atoi(fields[1]) else metric)
  }

  /** The device loop: the field after the first "dev" field. */
  function DevOf(fields: seq<string>): string {
    if |fields| < 2 then "" else if fields[0] == "dev" then fields[1] else DevOf(fields[1..])
  }

  function ParseRouteLine(line: string): Option<string> {
    var fields := Fields(line);
    if fields == [] then None
    else
      var metric := MetricOf(fields, 0);
      if fields[0] == "blackhole" || fields[0] == "unreachable" then
        Some("blackhole|default|metric=" + Decimal(metric))
      else if fields[0] == "default" then
        var dev := DevOf(fields);
        if dev == "" then None else Some("dev=" + dev + "|default|metric=" + Decimal(metric))
      else None
  }

  /** The last of the words, not counting the final field, is field i. */
  ghost predicate LastWord(fields: seq<string>, word: string, i: int) {
    0 <= i < |fields| - 1 && fields[i] == word && forall j :: i < j < |fields| - 1 ==> fields[j] != word
  }

  /** The first of them is. */
  ghost predicate FirstWord(fields: seq<string>, word: string, i: int) {
    0 <= i < |fields| - 1 && fields[i] == word && forall j :: 0 <= j < i ==> fields[j] != word
  }

  lemma {:induction false} MetricOfIs(fields: seq<string>, metric: int)
    ensures forall i :: LastWord(fields, "metric", i) ==> MetricOf(fields, metric) == Atoi(fields[i + 1])
    ensures "metric" !in fields[..if fields == [] then 0 else |fields| - 1] ==> MetricOf(fields, metric) == metric
  {
    hide Atoi;
    if |fields| >= 2 {
      var rest, next := fields[1..], if fields[0] == "metric" then Atoi(fields[1]) else metric;
      MetricOfIs(rest, next);
      assert forall j :: 0 <= j < |rest| ==> rest[j] == fields[j + 1];
      assert rest[..|rest| - 1] == fields[..|fields| - 1][1..];
      forall i | LastWord(fields, "metric", i) ensures MetricOf(fields, metric) == Atoi(fields[i + 1]) {
        if i > 0 {
          assert LastWord(rest, "metric", i - 1);
        } else {
          assert "metric" !in rest[..|rest| - 1];
        }
      }
      assert fields[0] == fields[..|fields| - 1][0];
    }
  }

  lemma {:induction false} DevOfIs(fields: seq<string>)
    ensures forall i :: FirstWord(fields, "dev", i) ==> DevOf(fields) == fields[i + 1]
    ensures "dev" !in fields[..if fields == [] then 0 else |fields| - 1] ==> DevOf(fields) == ""
  {
    if |fields| >= 2 && fields[0] != "dev" {
      var rest := fields[1..];
      DevOfIs(rest);
      assert forall j :: 0 <= j < |rest| ==> rest[j] == fields[j + 1];
      assert rest[..|rest| - 1] == fields[..|fields| - 1][1..];
      forall i | FirstWord(fields, "dev", i) ensures DevOf(fields) == fields[i + 1] {
        assert FirstWord(rest, "dev", i - 1);
      }
    } else if |fields| >= 2 {
      assert fields[0] == fields[..|fields| - 1][0];
    }
  }

  /** The metric of a line: the field behind the last "metric", 0 if there is none. */
  ghost predicate LineMetric(fields: seq<string>, m: int)
    requires fields != []
  {
    (exists i :: LastWord(fields, "metric", i) && m == Atoi(fields[i + 1])) || (m == 0 && "metric" !in fields[..|fields| - 1])
  }

  lemma SomeWord(fields: seq<string>, word: string) returns (first: int, last: int)
    requires fields != [] && word in fields[..|fields| - 1]
    ensures FirstWord(fields, word, first) && LastWord(fields, word, last)
  {
    var k :| 0 <= k < |fields| - 1 && fields[k] == word;
    first, last := 0, |fields| - 2;
    while fields[first] != word
      invariant 0 <= first <= k && forall j :: 0 <= j < first ==> fields[j] != word
      decreases k - first
    {
      first := first + 1;
    }
    while fields[last] != word
      invariant k <= last < |fields| - 1 && forall j :: last < j < |fields| - 1 ==> fields[j] != word
      decreases last
    {
      last := last - 1;
    }
  }

  lemma MetricOfLine(fields: seq<string>)
    requires fields != []
    ensures LineMetric(fields, MetricOf(fields, 0))
  {
    MetricOfIs(fields, 0);
    if "metric" in fields[..|fields| - 1] {
      var _, i := SomeWord(fields, "metric");
    }
  }

  /** What a line is read as: a first field "blackhole" or "unreachable" gives the blackhole with the metric of the line,
      "default" the device behind the first "dev", if it has one; no other line counts. */
  lemma ParseRouteLineIs(line: string)
    ensures var fields, key := Fields(line), ParseRouteLine(line);
            if fields == [] then key == None
            else if fields[0] == "blackhole" || fields[0] == "unreachable" then
              exists m :: LineMetric(fields, m) && key == Some("blackhole|default|metric=" + Decimal(m))
            else if fields[0] == "default" then
              if "dev" in fields[..|fields| - 1] then
                exists m, i :: && LineMetric(fields, m) && FirstWord(fields, "dev", i)
                               && key == Some("dev=" + fields[i + 1] + "|default|metric=" + Decimal(m))
              else key == None
            else key == None
  {
    var fields := Fields(line);
    hide Fields, Atoi, Decimal, MetricOf, DevOf, LineMetric;
    if fields != [] {
      MetricOfLine(fields);
      DevOfIs(fields);
      if "dev" in fields[..|fields| - 1] {
        var i, _ := SomeWord(fields, "dev");
        assert fields[i + 1] != "";
      }
    }
  }

  /** Reading a text gives the keys of exactly its lines. */
  lemma {:induction false} KeysOfLinesIff(lines: seq<string>, k: string)
    ensures k in KeysOfLines(lines) <==> exists i :: 0 <= i < |lines| && ParseRouteLine(TrimSpace(lines[i])) == Some(k)
  {
    if lines != [] {
      KeysOfLinesIff(lines[1..], k);
      assert ParseRouteLine("") == None;
      hide ParseRouteLine, TrimSpace;
      assert forall i :: 0 <= i < |lines[1..]| ==> lines[1..][i] == lines[i + 1];
      if i :| 0 <= i < |lines| && ParseRouteLine(TrimSpace(lines[i])) == Some(k) {
        assert i > 0 ==> ParseRouteLine(TrimSpace(lines[1..][i - 1])) == Some(k);
      }
      if i :| 0 <= i < |lines[1..]| && ParseRouteLine(TrimSpace(lines[1..][i])) == Some(k) {
        assert ParseRouteLine(TrimSpace(lines[i + 1])) == Some(k);
      }
    }
  }

  function KeysOfLines(lines: seq<string>): set<string> {
    if lines == [] then {}
    else
      var line := TrimSpace(lines[0]);
      var rest := KeysOfLines(lines[1..]);
      if line == "" then rest
      else
        match ParseRouteLine(line)
        case Some(k) => {k} + rest
        case None => rest
  }

  /** parseRouteKeys: a loop over the lines that fills a set. */
  method ParseRouteKeys(out: string) returns (keys: set<string>)
    ensures keys == KeysOfLines(Split(out, '\n'))
  {
    keys := {};
    var lines := Split(out, '\n');
    for i := 0 to |lines|
      invariant keys + KeysOfLines(lines[i..]) == KeysOfLines(lines)
    {
      assert lines[i..][0] == lines[i] && lines[i..][1..] == lines[i + 1..];
      var line := TrimSpace(lines[i]);
      if line == "" {
        continue;
      }
      var k := ParseRouteLine(line);
      if k.Some? {
        keys := keys + {k.value};
      }
    }
  }

  function DesiredKeys(want: seq<RouteSpec>): set<string> {
    set rt | rt in want :: RouteKey(rt)
  }

  ghost predicate TableRoutesMatchSpec(out: string, want: seq<RouteSpec>) {
    KeysOfLines(Split(out, '\n')) == DesiredKeys(want)
  }

  /** tableRoutesMatch: same number of keys and every desired one present. */
  method TableRoutesMatch(out: string, want: seq<RouteSpec>) returns (b: bool)
    ensures b == TableRoutesMatchSpec(out, want)
  {
    var live := ParseRouteKeys(out);
    var desired := DesiredKeys(want);
    b := |live| == |desired| && desired <= live;
    if desired <= live {
      assert live == desired + (live - desired) && |live| == |desired| + |live - desired|;
    }
  }

  // ----- listing and parsing agree

  function KeyOfRoute(r: Route): string {
    match r.hop
    case Blackhole => "blackhole|default|metric=" + Itoa(r.metric)
    case Dev(name) => "dev=" + name + "|default|metric=" + Itoa(r.metric)
  }

  lemma WordsOk(r: Route)
    requires ValidRoute(r)
    ensures forall i :: 0 <= i < |RouteWords(r)| ==> RouteWords(r)[i] != "" && NoSpace(RouteWords(r)[i])
  {
  }

  lemma MetricStep(word: string, rest: seq<string>, metric: int)
    requires rest != []
    ensures MetricOf([word] + rest, metric) == MetricOf(rest, if word == "metric" then Atoi(rest[0]) else metric)
  {
    assert ([word] + rest)[1..] == rest;
  }

  /** Whatever the interface is called, the metric read is the one listed. */
  lemma MetricOfTail(word: string, r: Route, m: int)
    requires r.metric < 0x8000_0000 && (r.metric == 0 ==> m == 0)
    ensures MetricOf([word] + (if r.metric > 0 then ["metric", Itoa(r.metric)] else []), m) == r.metric
  {
    if r.metric > 0 {
      var n := Itoa(r.metric);
      AtoiOfItoa(r.metric);
      MetricStep(word, ["metric", n], m);
      assert ["metric", n] == ["metric"] + [n];
      MetricStep("metric", [n], if word == "metric" then Atoi("metric") else m);
    }
  }

  lemma MetricOfWords(r: Route)
    requires ValidRoute(r)
    ensures MetricOf(RouteWords(r), 0) == r.metric
  {
    var last := if r.metric > 0 then ["metric", Itoa(r.metric)] else [];
    match r.hop {
      case Blackhole =>
        MetricOfTail("default", r, 0);
        MetricStep("blackhole", ["default"] + last, 0);
        assert RouteWords(r) == ["blackhole"] + (["default"] + last);
      case Dev(name) =>
        MetricOfTail(name, r, 0);
        MetricStep("dev", [name] + last, 0);
        MetricStep("default", ["dev"] + ([name] + last), 0);
        assert RouteWords(r) == ["default"] + (["dev"] + ([name] + last));
    }
  }

  lemma ParseListedRoute(r: Route)
    requires ValidRoute(r)
    ensures var line := TrimSpace(RouteLine(r)); line != "" && ParseRouteLine(line) == Some(KeyOfRoute(r))
    ensures '\n' !in RouteLine(r)
  {
    var words := RouteWords(r);
    WordsOk(r);
    WordsShape(words);
    TrimTrailing(Join(words, ' '));
    FieldsOfWords(words);
    MetricOfWords(r);
    if r.hop.Dev? {
      DevOfWords(r);
    }
    hide Fields, TrimSpace, Join, MetricOf, DevOf;
    assert words[0] == if r.hop.Dev? then "default" else "blackhole";
    assert |"default"| != |"blackhole"| && |"default"| != |"unreachable"|;
  }

  lemma DevOfWords(r: Route)
    requires r.hop.Dev?
    ensures DevOf(RouteWords(r)) == r.hop.name
  {
    var words := RouteWords(r);
    assert words[0] == "default" && words[1..][0] == "dev" && words[1..][1] == r.hop.name;
    assert |"default"| != |"dev"|;
    assert DevOf(words) == DevOf(words[1..]);
  }

  ghost function KeysOf(rs: seq<Route>): set<string> {
    set r | r in rs :: KeyOfRoute(r)
  }

  lemma KeysOfFirst(rs: seq<Route>)
    ensures rs != [] ==> KeysOf(rs) == {KeyOfRoute(rs[0])} + KeysOf(rs[1..])
  {
    hide KeyOfRoute;
    if rs != [] {
      assert rs == [rs[0]] + rs[1..];
    }
  }

  lemma KeysOfFirstLine(lines: seq<string>, k: string)
    requires lines != [] && TrimSpace(lines[0]) != "" && ParseRouteLine(TrimSpace(lines[0])) == Some(k)
    ensures KeysOfLines(lines) == {k} + KeysOfLines(lines[1..])
  {
    hide TrimSpace, ParseRouteLine;
  }

  /** Reading what was listed gives the keys of exactly the routes there are. */
  lemma {:induction false} ParseListed(rs: seq<Route>)
    requires forall i :: 0 <= i < |rs| ==> ValidRoute(rs[i])
    ensures KeysOfLines(Split(RoutesText(rs), '\n')) == KeysOf(rs)
  {
    if rs == [] {
      assert Split("", '\n') == [""] && [""][1..] == [];
    } else {
      ParseListed(rs[1..]);
      ParseListedRoute(rs[0]);
      hide RouteLine, ParseRouteLine, TrimSpace, KeyOfRoute, KeysOf, ValidRoute;
      LinesListed(rs);
      KeysOfFirstLine(Split(RoutesText(rs), '\n'), KeyOfRoute(rs[0]));
      KeysOfFirst(rs);
    }
  }

  lemma LinesListed(rs: seq<Route>)
    requires rs != [] && '\n' !in RouteLine(rs[0])
    ensures Split(RoutesText(rs), '\n') != []
    ensures Split(RoutesText(rs), '\n')[0] == RouteLine(rs[0])
    ensures Split(RoutesText(rs), '\n')[1..] == Split(RoutesText(rs[1..]), '\n')
  {
    hide RouteLine;
    SplitNone(RouteLine(rs[0]), '\n');
    SplitConcat(RouteLine(rs[0]), RoutesText(rs[1..]), '\n');
  }

  // ----- keys tell routes apart

  lemma AfterLastEquals(a: string, b: string, c: string, d: string)
    requires a + "=" + b == c + "=" + d && '=' !in d
    ensures |a| <= |c|
  {
    var s := c + "=" + d;
    assert s[|a|] == '=' by {
      assert (a + "=" + b)[|a|] == '=';
    }
    assert forall k :: |c| < k < |s| ==> s[k] == d[k - |c| - 1];
  }

  /** Cutting a text at its last '='. */
  lemma LastEquals(a: string, b: string, c: string, d: string)
    requires a + "=" + b == c + "=" + d && '=' !in b && '=' !in d
    ensures a == c && b == d
  {
    AfterLastEquals(a, b, c, d);
    AfterLastEquals(c, d, a, b);
    var s, t := a + "=" + b, c + "=" + d;
    assert a == s[..|a|] && c == t[..|c|] && b == s[|a| + 1..] && d == t[|c| + 1..];
  }

  lemma KeyInjective(r: Route, q: Route)
    requires KeyOfRoute(r) == KeyOfRoute(q)
    ensures r == q
  {
    var f, g := KeyFront(r), KeyFront(q);
    assert KeyOfRoute(r) == f + "=" + Itoa(r.metric);
    assert KeyOfRoute(q) == g + "=" + Itoa(q.metric);
    LastEquals(f, Itoa(r.metric), g, Itoa(q.metric));
    ItoaInjective(r.metric, q.metric);
    assert f[0] == g[0];
    if r.hop.Dev? && q.hop.Dev? {
      var tail := "|default|metric";
      assert f == "dev=" + r.hop.name + tail && g == "dev=" + q.hop.name + tail;
      assert r.hop.name == f[4..|f| - |tail|] && q.hop.name == g[4..|g| - |tail|];
    }
  }

  ghost function KeyFront(r: Route): string {
    match r.hop
    case Blackhole => "blackhole|default|metric"
    case Dev(name) => "dev=" + name + "|default|metric"
  }

  // ----- route tables

  lemma {:induction false} InWithout(rs: seq<Route>, metric: nat, r: Route)
    ensures r in Without(rs, metric) <==> r in rs && r.metric != metric
  {
    if rs != [] {
      InWithout(rs[1..], metric, r);
      assert rs == [rs[0]] + rs[1..];
    }
  }

  lemma InSetRoute(rs: seq<Route>, n: Route, r: Route)
    ensures r in SetRoute(rs, n) <==> r == n || (r in rs && r.metric != n.metric)
  {
    InWithout(rs, n.metric, r);
  }

  lemma {:induction false} InWithoutDev(rs: seq<Route>, name: string, r: Route)
    ensures r in WithoutDev(rs, name) <==> r in rs && r.hop != Dev(name)
  {
    if rs != [] {
      InWithoutDev(rs[1..], name, r);
      assert rs == [rs[0]] + rs[1..];
    }
  }

  /** Best finds a route of least metric whenever there is a route. */
  lemma {:induction false} BestIff(rs: seq<Route>)
    ensures Best(rs) == None <==> rs == []
    ensures Best(rs).Some? ==> Best(rs).value in rs && forall r :: r in rs ==> Best(rs).value.metric <= r.metric
  {
    if rs != [] {
      BestIff(rs[1..]);
      assert rs == [rs[0]] + rs[1..];
    }
  }
}
