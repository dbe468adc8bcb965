/** Reading and writing lists of prefixes, one per line. */
module CidrList {
  import opened Ipv4
  import opened Text
  import opened CidrText
  import opened Blocks

  /** The longest token that bufio.Scanner accepts is shorter than its buffer. */
  const MAX_SCAN_TOKEN_SIZE := 65536

  datatype PrefixText = Bad | Other | V4(p: Prefix)

  /** netip.ParsePrefix; accepts6 says which texts it takes for IPv6 prefixes. */
  function ParsePrefix(s: string, accepts6: string -> bool): PrefixText {
    match ParsePrefix4(s)
    case Some(p) => V4(p)
    case None => if ':' in s && accepts6(s) then Other else Bad
  }

  /** A list and no error, a line that does not parse, or the list up to a line that is too long or a read error. */
  datatype Listing = Parsed(ps: seq<Prefix>) | Failed(line: string) | Unread(ps: seq<Prefix>)

  function Prepend(ps: seq<Prefix>, l: Listing): Listing {
    match l
    case Parsed(qs) => Parsed(ps + qs)
    case Failed(line) => l
    case Unread(qs) => Unread(ps + qs)
  }

  /** Bytes of a text in UTF-8, which is what the scanner counts. */
  function ByteCount(s: string): (n: nat)
    ensures n <= 4 * |s|
  {
    if s == "" then 0
    else (if s[0] < '\U{80}' then 1 else if s[0] < '\U{800}' then 2 else if s[0] < '\U{10000}' then 3 else 4) + ByteCount(s[1..])
  }

  /** The lines of a text; a final line break does not start another line. */
  function Lines(text: string): seq<string> {
    var parts := Split(text, '\n');
    if parts[|parts| - 1] == "" then parts[..|parts| - 1] else parts
  }

  ghost function ListingOf(lines: seq<string>, accepts6: string -> bool): Listing {
    if lines == [] then Parsed([])
    else if ByteCount(lines[0]) >= MAX_SCAN_TOKEN_SIZE then Unread([])
    else
      var line := TrimSpace(lines[0]);
      var rest := ListingOf(lines[1..], accepts6);
      if line == "" || HasPrefix(line, "#") then rest
      else
        match ParsePrefix(line, accepts6)
        case Bad => Failed(line)
        case Other => rest
        case V4(p) => Prepend([p], rest)
  }

  ghost function Ended(l: Listing, broken: bool): Listing {
    if broken && l.Parsed? then Unread(l.ps) else l
  }

  /** ParseCIDRList: blank lines, comments and IPv6 prefixes are skipped, a bad line is an error. The reader gives the text
      and then ends, or breaks. */
  method ParseCIDRList(text: string, broken: bool, accepts6: string -> bool) returns (l: Listing)
    ensures l == Ended(ListingOf(Lines(text), accepts6), broken)
    ensures Reads(Lines(text), broken, accepts6, l)
  {
    ReadingIff(Lines(text), broken, accepts6);
    hide Reads;
    var out := [];
    var lines := Lines(text);
    for i := 0 to |lines|
      invariant ListingOf(lines, accepts6) == Prepend(out, ListingOf(lines[i..], accepts6))
    {
      assert lines[i..][0] == lines[i] && lines[i..][1..] == lines[i + 1..];
      if ByteCount(lines[i]) >= MAX_SCAN_TOKEN_SIZE {
        return Unread(out);
      }
      var line := TrimSpace(lines[i]);
      if line == "" || HasPrefix(line, "#") {
        continue;
      }
      var parsed := ParsePrefix(line, accepts6);
      if parsed == Bad {
        return Failed(line);
      }
      if parsed == Other {
        continue;
      }
      PrependTwice(out, [parsed.p], ListingOf(lines[i + 1..], accepts6));
      out := out + [parsed.p];
    }
    return if broken then Unread(out) else Parsed(out);
  }

  lemma PrependTwice(a: seq<Prefix>, b: seq<Prefix>, l: Listing)
    ensures Prepend(a, Prepend(b, l)) == Prepend(a + b, l)
  {
    assert l.Parsed? || l.Unread? ==> a + (b + l.ps) == (a + b) + l.ps;
  }

  // ----- what the reader promises

  /** A text takes as many bytes as its characters do in UTF-8. */
  lemma {:induction false} BytesAddUp(s: string, t: string)
    ensures ByteCount(s + t) == ByteCount(s) + ByteCount(t)
    ensures (forall i :: 0 <= i < |s| ==> s[i] < '\U{80}') ==> ByteCount(s) == |s|
    ensures |s| == 1 ==> ByteCount(s) == if s[0] < '\U{80}' then 1 else if s[0] < '\U{800}' then 2
                                         else if s[0] < '\U{10000}' then 3 else 4
  {
    if s == "" {
      assert s + t == t;
    } else {
      BytesAddUp(s[1..], t);
      assert (s + t)[0] == s[0] && (s + t)[1..] == s[1..] + t;
      assert |s| == 1 ==> s[1..] == "";
    }
  }

  lemma JoinOne(s: string)
    ensures Join([s], '\n') == s
  {
  }

  lemma LinesOfText(text: string)
    ensures NoneHas(Lines(text), '\n') && (text == "" <==> Lines(text) == [])
    ensures text != "" ==> text == Join(Lines(text), '\n') || text == Join(Lines(text), '\n') + "\n"
  {
    var parts := Split(text, '\n');
    assert text == "" ==> parts == [""];
    SplitNone(text, '\n');
    JoinOfSplit(text, '\n');
    JoinOne(parts[0]);
    hide Split, Join;
    if parts[|parts| - 1] == "" && |parts| > 1 {
      assert parts == parts[..|parts| - 1] + [""];
      JoinConcat(parts[..|parts| - 1], [""], '\n');
      assert text == Join(parts[..|parts| - 1], '\n') + "\n";
      JoinOne("");
    } else {
      assert |parts| == 1 ==> parts == [parts[0]];
    }
  }

  ghost predicate TooLong(line: string) {
    ByteCount(line) >= 65536
  }

  /** Blank, a comment, or an IPv6 prefix. */
  ghost predicate Skipped(t: string, accepts6: string -> bool) {
    t == "" || t[0] == '#' || (':' in t && accepts6(t))
  }

  ghost predicate BadText(t: string, accepts6: string -> bool) {
    !Skipped(t, accepts6) && forall p :: t != PrefixString(p)
  }

  /** None of the first n lines stops the reader. */
  ghost predicate Clean(lines: seq<string>, n: nat, accepts6: string -> bool)
    requires n <= |lines|
  {
    forall i :: 0 <= i < n ==> !TooLong(lines[i]) && !BadText(TrimSpace(lines[i]), accepts6)
  }

  /** The prefixes are those of the lines that are printed ones, in order. */
  ghost predicate Picks(lines: seq<string>, at: seq<nat>, ps: seq<Prefix>) {
    && |at| == |ps| && (forall j, k :: 0 <= j < k < |at| ==> at[j] < at[k])
    && (forall j :: 0 <= j < |at| ==> at[j] < |lines| && TrimSpace(lines[at[j]]) == PrefixString(ps[j]))
    && (forall i, p :: 0 <= i < |lines| && TrimSpace(lines[i]) == PrefixString(p) ==> i in at)
  }

  lemma LineKind(t: string, accepts6: string -> bool)
    ensures forall p :: ParsePrefix(t, accepts6) == V4(p) <==> t == PrefixString(p)
    ensures ParsePrefix(t, accepts6) == Other <==> ':' in t && accepts6(t)
    ensures forall p :: t == PrefixString(p) ==> !Skipped(t, accepts6)
  {
    hide PrefixString, ParsePrefix4;
    forall p
      ensures ParsePrefix(t, accepts6) == V4(p) <==> t == PrefixString(p)
      ensures t == PrefixString(p) ==> !Skipped(t, accepts6) && ':' !in t
    {
      ParsePrefix4Iff(t, p);
      PrefixStringShape(p);
    }
  }

  /** The prefix that a text is printed for, if any. */
  ghost function PrefixesIn(t: string): seq<Prefix> {
    match ParsePrefix4(t)
    case Some(p) => [p]
    case None => []
  }

  lemma PrefixesInIff(t: string)
    ensures forall p :: PrefixesIn(t) == [p] <==> t == PrefixString(p)
  {
    hide ParsePrefix4, PrefixString;
    forall p ensures PrefixesIn(t) == [p] <==> t == PrefixString(p) {
      ParsePrefix4Iff(t, p);
    }
  }

  lemma OneLine(line: string, accepts6: string -> bool)
    ensures ListingOf([line], accepts6)
         == if TooLong(line) then Unread([])
            else if BadText(TrimSpace(line), accepts6) then Failed(TrimSpace(line))
            else Parsed(PrefixesIn(TrimSpace(line)))
    ensures Skipped(TrimSpace(line), accepts6) ==> PrefixesIn(TrimSpace(line)) == []
  {
    LineKind(TrimSpace(line), accepts6);
    PrefixesInIff(TrimSpace(line));
    assert [line][1..] == [];
    hide TrimSpace, ParsePrefix4, PrefixString, ByteCount;
  }

  /** Reading goes on behind lines that read well, and stops at one that does not. */
  lemma {:induction false} ListingConcat(a: seq<string>, b: seq<string>, accepts6: string -> bool)
    ensures ListingOf(a + b, accepts6)
         == if ListingOf(a, accepts6).Parsed? then Prepend(ListingOf(a, accepts6).ps, ListingOf(b, accepts6))
            else ListingOf(a, accepts6)
  {
    hide TrimSpace, ParsePrefix, ByteCount;
    if a == [] {
      assert a + b == b;
      PrependNone(ListingOf(b, accepts6));
    } else {
      assert (a + b)[0] == a[0] && (a + b)[1..] == a[1..] + b;
      ListingConcat(a[1..], b, accepts6);
      var t := ParsePrefix(TrimSpace(a[0]), accepts6);
      if t.V4? && ListingOf(a[1..], accepts6).Parsed? {
        PrependTwice([t.p], ListingOf(a[1..], accepts6).ps, ListingOf(b, accepts6));
      }
    }
  }

  lemma PrependNone(l: Listing)
    ensures Prepend([], l) == l
  {
  }

  /** A blank line, a comment or an IPv6 prefix, anywhere in a list, changes nothing. */
  lemma SkippedLine(a: seq<string>, line: string, b: seq<string>, accepts6: string -> bool)
    requires !TooLong(line) && Skipped(TrimSpace(line), accepts6)
    ensures ListingOf(a + [line] + b, accepts6) == ListingOf(a + b, accepts6)
  {
    hide ListingOf, TrimSpace, PrefixString, TooLong;
    OneLine(line, accepts6);
    ListingConcat([line], b, accepts6);
    PrependNone(ListingOf(b, accepts6));
    assert a + [line] + b == a + ([line] + b);
    ListingConcat(a, [line] + b, accepts6);
    ListingConcat(a, b, accepts6);
  }

  lemma {:induction false} CleanListing(lines: seq<string>, accepts6: string -> bool)
    requires Clean(lines, |lines|, accepts6)
    ensures var l := ListingOf(lines, accepts6); l.Parsed? && exists at :: Picks(lines, at, l.ps)
  {
    hide TrimSpace, PrefixString, TooLong;
    if lines == [] {
      assert Picks([], [], []);
    } else {
      var n := |lines| - 1;
      var front, last := lines[..n], lines[n];
      CleanListing(front, accepts6);
      assert lines == front + [last];
      ListingConcat(front, [last], accepts6);
      OneLine(last, accepts6);
      var ps := ListingOf(front, accepts6).ps;
      var at :| Picks(front, at, ps);
      PickLast(front, at, ps, last);
    }
  }

  lemma PickLast(front: seq<string>, at: seq<nat>, ps: seq<Prefix>, last: string)
    requires Picks(front, at, ps)
    ensures var more := PrefixesIn(TrimSpace(last));
            Picks(front + [last], if more == [] then at else at + [|front|], ps + more)
  {
    PrefixesInIff(TrimSpace(last));
    var more, lines := PrefixesIn(TrimSpace(last)), front + [last];
    hide TrimSpace, PrefixString, ParsePrefix4;
    assert forall i :: 0 <= i < |front| ==> lines[i] == front[i];
    assert lines[|front|] == last;
    if more == [] {
      assert ps + more == ps;
    } else {
      assert more == [more[0]];
      PickOne(front, at, ps, last, more[0]);
    }
  }

  lemma PickOne(front: seq<string>, at: seq<nat>, ps: seq<Prefix>, last: string, p: Prefix)
    requires Picks(front, at, ps) && TrimSpace(last) == PrefixString(p)
    ensures Picks(front + [last], at + [|front|], ps + [p])
  {
    hide TrimSpace, PrefixString;
    var lines, next := front + [last], at + [|front|];
    assert forall i :: 0 <= i < |front| ==> lines[i] == front[i];
    assert lines[|front|] == last;
    assert forall i :: i in at ==> i in next;
    assert next[|at|] == |front|;
  }

  /** The first line that stops the reader. */
  lemma {:induction false} FirstStop(lines: seq<string>, accepts6: string -> bool) returns (n: nat)
    ensures n <= |lines| && Clean(lines, n, accepts6)
    ensures n < |lines| ==> TooLong(lines[n]) || BadText(TrimSpace(lines[n]), accepts6)
  {
    hide TooLong, BadText, TrimSpace;
    n := 0;
    while n < |lines| && !TooLong(lines[n]) && !BadText(TrimSpace(lines[n]), accepts6)
      invariant n <= |lines| && forall i :: 0 <= i < n ==> !TooLong(lines[i]) && !BadText(TrimSpace(lines[i]), accepts6)
    {
      n := n + 1;
    }
  }

  /** The first line that stops the reader is line i, a bad one with that text. */
  ghost predicate StopsBad(lines: seq<string>, i: int, t: string, accepts6: string -> bool) {
    && 0 <= i < |lines| && Clean(lines, i, accepts6) && !TooLong(lines[i])
    && TrimSpace(lines[i]) == t && BadText(t, accepts6)
  }

  /** The first line that stops the reader is line i, one that is too long. */
  ghost predicate StopsLong(lines: seq<string>, i: int, accepts6: string -> bool) {
    0 <= i < |lines| && Clean(lines, i, accepts6) && TooLong(lines[i])
  }

  /** All the lines are read, or those before one that is too long, and these are the prefixes in them. */
  ghost predicate ReadUpTo(lines: seq<string>, n: int, at: seq<nat>, ps: seq<Prefix>, accepts6: string -> bool) {
    0 <= n <= |lines| && Clean(lines, n, accepts6) && (n == |lines| || TooLong(lines[n])) && Picks(lines[..n], at, ps)
  }

  lemma StopOnce(lines: seq<string>, n: nat, i: int, accepts6: string -> bool)
    requires n <= |lines| && Clean(lines, n, accepts6)
    requires n < |lines| ==> TooLong(lines[n]) || BadText(TrimSpace(lines[n]), accepts6)
    requires 0 <= i < |lines| && Clean(lines, i, accepts6) && (TooLong(lines[i]) || BadText(TrimSpace(lines[i]), accepts6))
    ensures i == n
  {
    hide TooLong, BadText, TrimSpace;
  }

  lemma CleanFront(lines: seq<string>, n: nat, accepts6: string -> bool)
    requires n <= |lines| && Clean(lines, n, accepts6)
    ensures Clean(lines[..n], n, accepts6)
  {
    hide TooLong, BadText, TrimSpace;
  }

  lemma StopHere(front: seq<string>, line: string, rest: seq<string>, accepts6: string -> bool)
    requires ListingOf(front, accepts6).Parsed? && (TooLong(line) || BadText(TrimSpace(line), accepts6))
    ensures ListingOf(front + ([line] + rest), accepts6)
         == if TooLong(line) then Unread(ListingOf(front, accepts6).ps) else Failed(TrimSpace(line))
  {
    assert ListingOf(front, accepts6).ps + [] == ListingOf(front, accepts6).ps;
    hide TooLong, BadText, TrimSpace, ListingOf, PrefixesIn, Skipped;
    OneLine(line, accepts6);
    ListingConcat([line], rest, accepts6);
    ListingConcat(front, [line] + rest, accepts6);
  }

  lemma CutAt(lines: seq<string>, n: nat)
    requires n < |lines|
    ensures lines == lines[..n] + ([lines[n]] + lines[n + 1..])
  {
  }

  lemma StoppedListing(lines: seq<string>, n: nat, accepts6: string -> bool)
    requires n < |lines| && Clean(lines, n, accepts6) && (TooLong(lines[n]) || BadText(TrimSpace(lines[n]), accepts6))
    ensures ListingOf(lines[..n], accepts6).Parsed?
    ensures ListingOf(lines, accepts6)
         == if TooLong(lines[n]) then Unread(ListingOf(lines[..n], accepts6).ps) else Failed(TrimSpace(lines[n]))
    ensures exists at :: Picks(lines[..n], at, ListingOf(lines[..n], accepts6).ps)
  {
    hide *;
    var front, line, rest := lines[..n], lines[n], lines[n + 1..];
    CleanFront(lines, n, accepts6);
    CleanListing(front, accepts6);
    StopHere(front, line, rest, accepts6);
    CutAt(lines, n);
  }

  /** What reading a list gives, on every list of lines: a list exactly if no line is bad or too long and the reader does
      not break; an error with the text of the first bad line, if no line before it is too long; else what was read up to
      the line that is too long. The prefixes are those of the lines, in order. */
  ghost predicate Reads(lines: seq<string>, broken: bool, accepts6: string -> bool, l: Listing) {
    && (l.Parsed? <==> !broken && Clean(lines, |lines|, accepts6))
    && (forall t :: l == Failed(t) <==> exists i :: StopsBad(lines, i, t, accepts6))
    && (l.Unread? <==> (broken && Clean(lines, |lines|, accepts6)) || exists i :: StopsLong(lines, i, accepts6))
    && (l.Parsed? ==> exists at :: ReadUpTo(lines, |lines|, at, l.ps, accepts6))
    && (l.Unread? ==> exists n, at :: ReadUpTo(lines, n, at, l.ps, accepts6))
  }

  lemma ReadingIff(lines: seq<string>, broken: bool, accepts6: string -> bool)
    ensures Reads(lines, broken, accepts6, Ended(ListingOf(lines, accepts6), broken))
  {
    var n := FirstStop(lines, accepts6);
    var l := Ended(ListingOf(lines, accepts6), broken);
    hide TooLong, BadText, TrimSpace, ListingOf, Picks;
    forall i | StopsLong(lines, i, accepts6) ensures i == n {
      StopOnce(lines, n, i, accepts6);
    }
    forall i, t | StopsBad(lines, i, t, accepts6) ensures i == n {
      StopOnce(lines, n, i, accepts6);
    }
    if n == |lines| {
      CleanListing(lines, accepts6);
      assert lines[..n] == lines;
      var at :| Picks(lines, at, l.ps);
      assert ReadUpTo(lines, n, at, l.ps, accepts6);
    } else {
      StoppedListing(lines, n, accepts6);
      if TooLong(lines[n]) {
        assert StopsLong(lines, n, accepts6);
        var at :| Picks(lines[..n], at, l.ps);
        assert ReadUpTo(lines, n, at, l.ps, accepts6);
      } else {
        assert StopsBad(lines, n, TrimSpace(lines[n]), accepts6);
      }
    }
  }

  ghost function Written(ps: seq<Prefix>): string {
    if ps == [] then "" else PrefixString(ps[0]) + "\n" + Written(ps[1..])
  }

  /** WriteCIDRList: one printed prefix a line, up to the first write that fails. */
  method WriteCIDRList(ps: seq<Prefix>, opens: bool, fails: nat -> bool) returns (text: string, ok: bool)
    ensures ok <==> opens && forall i :: 0 <= i < |ps| ==> !fails(i)
    ensures ok ==> text == Written(ps)
    ensures !opens ==> text == ""
    ensures opens && !ok ==> exists n :: 0 <= n < |ps| && FirstFailure(fails, n) && text == Written(ps[..n])
  {
    hide PrefixString;
    text := "";
    if !opens {
      return text, false;
    }
    for i := 0 to |ps|
      invariant text == Written(ps[..i])
      invariant forall j :: 0 <= j < i ==> !fails(j)
    {
      if fails(i) {
        assert FirstFailure(fails, i);
        return text, false;
      }
      WrittenSnoc(ps, i);
      text := text + PrefixString(ps[i]) + "\n";
    }
    assert ps[..|ps|] == ps;
    return text, true;
  }

  ghost predicate FirstFailure(fails: nat -> bool, n: nat) {
    fails(n) && forall j :: 0 <= j < n ==> !fails(j)
  }

  lemma {:induction false} WrittenSnoc(ps: seq<Prefix>, i: nat)
    requires i < |ps|
    ensures Written(ps[..i + 1]) == Written(ps[..i]) + PrefixString(ps[i]) + "\n"
  {
    hide PrefixString;
    if i == 0 {
      assert ps[..1] == [ps[0]] && [ps[0]][1..] == [];
    } else {
      WrittenSnoc(ps[1..], i - 1);
      assert ps[..i + 1][1..] == ps[1..][..i] && ps[..i][1..] == ps[1..][..i - 1];
    }
  }

  // ----- the two are inverse

  lemma {:induction false} LinesOfWritten(ps: seq<Prefix>)
    ensures |Lines(Written(ps))| == |ps|
    ensures forall i :: 0 <= i < |ps| ==> Lines(Written(ps))[i] == PrefixString(ps[i])
    ensures Split(Written(ps), '\n') == Lines(Written(ps)) + [""]
  {
    hide PrefixString;
    if ps != [] {
      LinesOfWritten(ps[1..]);
      var s := PrefixString(ps[0]);
      PrefixStringShape(ps[0]);
      SplitNone(s, '\n');
      SplitConcat(s, Written(ps[1..]), '\n');
      var rest := Lines(Written(ps[1..]));
      assert Split(Written(ps), '\n') == ([s] + rest) + [""];
    }
  }

  lemma {:induction false} ListingOfPrinted(lines: seq<string>, ps: seq<Prefix>, accepts6: string -> bool)
    requires |lines| == |ps| && forall i :: 0 <= i < |ps| ==> lines[i] == PrefixString(ps[i])
    ensures ListingOf(lines, accepts6) == Parsed(ps)
  {
    hide PrefixString, TrimSpace, ParsePrefix;
    if ps != [] {
      PrintedLine(ps[0], accepts6);
      ListingOfPrinted(lines[1..], ps[1..], accepts6);
      assert ps == [ps[0]] + ps[1..];
    }
  }

  lemma PrintedLine(p: Prefix, accepts6: string -> bool)
    ensures var s := PrefixString(p);
            TrimSpace(s) == s && s != "" && !HasPrefix(s, "#") && ByteCount(s) < MAX_SCAN_TOKEN_SIZE
            && ParsePrefix(s, accepts6) == V4(p)
  {
    hide PrefixString, TrimSpace, ParsePrefix4;
    PrefixStringShape(p);
    ParsePrefix4Iff(PrefixString(p), p);
  }

  /** Parsing what was written gives back the same list, host bits and order included. */
  lemma WriteThenParse(ps: seq<Prefix>, accepts6: string -> bool)
    ensures ListingOf(Lines(Written(ps)), accepts6) == Parsed(ps)
  {
    LinesOfWritten(ps);
    ListingOfPrinted(Lines(Written(ps)), ps, accepts6);
  }

  /** Fetching writes a collapsed list; applying it parses and collapses again and gets the same list. */
  lemma FetchThenApply(raw: seq<Prefix>, accepts6: string -> bool)
    ensures var l := ListingOf(Lines(Written(Collapsed(raw))), accepts6);
            l.Parsed? && Collapsed(l.ps) == Collapsed(raw)
  {
    WriteThenParse(Collapsed(raw), accepts6);
    CollapsedIdempotent(raw);
  }
}
