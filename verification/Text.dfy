/** Strings as the Go standard library treats them: decimal numbers, splitting, trimming. */
module Text {
  import opened Wrappers
  import opened Sorting

  // ----- decimal numbers

  predicate IsDigit(c: char) {
    '0' <= c <= '9'
  }

  predicate AllDigits(s: string) {
    forall i :: 0 <= i < |s| ==> IsDigit(s[i])
  }

  function Digit(n: nat): (c: char)
    requires n < 10
    ensures IsDigit(c)
  {
    '0' + n as char
  }

  /** The decimal text of n, as %d prints it. */
  function Itoa(n: nat): (s: string)
    ensures s != "" && AllDigits(s)
    ensures |s| > 1 ==> s[0] != '0'
    ensures n > 0 ==> s[0] != '0'
  {
    if n < 10 then [Digit(n)] else Itoa(n / 10) + [Digit(n % 10)]
  }

  /** %d of a possibly negative number. */
  function Decimal(n: int): (s: string)
    ensures s != "" && NoSpace(s)
  {
    if n < 0 then "-" + Itoa(-n) else Itoa(n)
  }

  function HexDigit(n: nat): char
    requires n < 16
  {
    if n < 10 then Digit(n) else 'a' + (n - 10) as char
  }

  /** %x of a natural number. */
  function Hex(n: nat): string {
    if n < 16 then [HexDigit(n)] else Hex(n / 16) + [HexDigit(n % 16)]
  }

  /** The value strconv.Atoi returns: 0 on a syntax error, the nearest bound when out of range. */
  function Atoi(s: string): int {
    var neg := s != "" && s[0] == '-';
    var digits := if s != "" && (s[0] == '-' || s[0] == '+') then s[1..] else s;
    if digits == "" || !AllDigits(digits) then 0
    else
      var v: int := Value(digits);
      if neg then (if v > 0x8000_0000_0000_0000 then -0x8000_0000_0000_0000 else -v)
      else (if v > 0x7FFF_FFFF_FFFF_FFFF then 0x7FFF_FFFF_FFFF_FFFF else v)
  }

  lemma AtoiOfItoa(n: nat)
    requires n < 0x8000_0000_0000_0000
    ensures Atoi(Itoa(n)) == n
  {
    ValueOfItoa(n);
  }

  /** Digits with at most one sign in front are read as a number, kept within 64 bits; anything else as 0. */
  lemma AtoiCases(digits: string)
    ensures digits != "" && AllDigits(digits) ==>
              && Atoi(digits) == Atoi("+" + digits) == (if Value(digits) <= 0x7FFF_FFFF_FFFF_FFFF then Value(digits)
                                                        else 0x7FFF_FFFF_FFFF_FFFF)
              && Atoi("-" + digits) == (if Value(digits) <= 0x8000_0000_0000_0000 then 0 - Value(digits) else -0x8000_0000_0000_0000)
    ensures digits == "" || !AllDigits(digits) ==> Atoi("-" + digits) == 0 && Atoi("+" + digits) == 0
    ensures !AllDigits(digits) && (digits[0] != '-' && digits[0] != '+') ==> Atoi(digits) == 0
    ensures digits == "" ==> Atoi(digits) == 0
  {
    assert ("+" + digits)[1..] == digits && ("-" + digits)[1..] == digits;
  }

  /** Leading zeros do not count, and each digit further right counts a tenth. */
  lemma ValueIs(s: string, c: char)
    requires AllDigits(s) && IsDigit(c)
    ensures Value(s + [c]) == 10 * Value(s) + (c as int - '0' as int) && Value("") == 0
  {
    assert (s + [c])[..|s + [c]| - 1] == s;
  }

  function Value(s: string): nat
    requires AllDigits(s)
  {
    if s == "" then 0 else Value(s[..|s| - 1]) * 10 + (s[|s| - 1] - '0') as nat
  }

  /** Reads decimal digits without a superfluous leading zero. */
  function ParseNat(s: string): Option<nat> {
    if s != "" && AllDigits(s) && (|s| > 1 ==> s[0] != '0') then Some(Value(s)) else None
  }

  lemma {:induction false} ValueOfItoa(n: nat)
    ensures Value(Itoa(n)) == n
  {
    if n >= 10 {
      ValueOfItoa(n / 10);
      var s := Itoa(n);
      assert s[..|s| - 1] == Itoa(n / 10);
    } else {
      assert Itoa(n)[..0] == "";
    }
  }

  lemma {:induction false} ItoaOfValue(s: string)
    requires s != "" && AllDigits(s) && (|s| > 1 ==> s[0] != '0')
    ensures Itoa(Value(s)) == s
    ensures s[0] != '0' ==> Value(s) > 0
  {
    var t, d := s[..|s| - 1], s[|s| - 1];
    assert s == t + [d] && IsDigit(d);
    var k := (d - '0') as nat;
    assert Digit(k) == d;
    if t != "" {
      ItoaOfValue(t);
      ItoaStep(Value(t), k);
    }
  }

  lemma ItoaStep(m: nat, k: nat)
    requires m > 0 && k < 10
    ensures Itoa(m * 10 + k) == Itoa(m) + [Digit(k)]
  {
    assert (m * 10 + k) / 10 == m && (m * 10 + k) % 10 == k;
  }

  /** The number grammar is exactly the printed numbers. */
  lemma ParseNatIff(s: string, n: nat)
    ensures ParseNat(s) == Some(n) <==> s == Itoa(n)
  {
    ValueOfItoa(n);
    if ParseNat(s) == Some(n) {
      ItoaOfValue(s);
    }
  }

  lemma ItoaInjective(m: nat, n: nat)
    requires Itoa(m) == Itoa(n)
    ensures m == n
  {
    ValueOfItoa(m);
    ValueOfItoa(n);
  }

  lemma ItoaShort(n: nat)
    requires n < 1000
    ensures |Itoa(n)| <= 3
  {
    if n >= 10 {
      assert |Itoa(n)| == |Itoa(n / 10)| + 1;
      if n >= 100 {
        assert |Itoa(n / 10)| == |Itoa(n / 100)| + 1;
      }
    }
  }

  /** Both notations are positional, most significant digit first. */
  lemma DigitsOf(n: nat)
    ensures Itoa(n) == (if n < 10 then "" else Itoa(n / 10)) + ["0123456789"[n % 10]]
    ensures Hex(n) == (if n < 16 then "" else Hex(n / 16)) + ["0123456789abcdef"[n % 16]]
    ensures Decimal(n) == Itoa(n) && (n > 0 ==> Decimal(0 - n) == "-" + Itoa(n))
  {
    DigitIs(n % 10);
    HexDigitIs(n % 16);
    hide Digit, HexDigit;
  }

  lemma DigitIs(d: nat)
    requires d < 10
    ensures Digit(d) == "0123456789"[d]
  {
    assert d in {0, 1, 2, 3, 4, 5, 6, 7, 8, 9};
  }

  lemma HexDigitIs(d: nat)
    requires d < 16
    ensures HexDigit(d) == "0123456789abcdef"[d]
  {
    assert d in {0, 1, 2, 3, 4, 5, 6, 7, 8, 9, 10, 11, 12, 13, 14, 15};
  }

  // ----- splitting and joining

  function Split(s: string, c: char): (parts: seq<string>)
    ensures parts != []
  {
    if s == "" then [""] else PutFirst(s[0], Split(s[1..], c), c)
  }

  /** The parts of a text with one more character in front. */
  function PutFirst(h: char, rest: seq<string>, c: char): (parts: seq<string>)
    requires rest != []
    ensures parts != []
  {
    if h == c then [""] + rest else [[h] + rest[0]] + rest[1..]
  }

  lemma PutFirstConcat(h: char, xs: seq<string>, ys: seq<string>, c: char)
    requires xs != []
    ensures PutFirst(h, xs + ys, c) == PutFirst(h, xs, c) + ys
  {
    assert (xs + ys)[1..] == xs[1..] + ys;
  }

  function Join(parts: seq<string>, c: char): string
    requires parts != []
  {
    if |parts| == 1 then parts[0] else parts[0] + [c] + Join(parts[1..], c)
  }

  ghost predicate NoneHas(parts: seq<string>, c: char) {
    forall i :: 0 <= i < |parts| ==> c !in parts[i]
  }

  lemma {:induction false} SplitNone(s: string, c: char)
    ensures NoneHas(Split(s, c), c)
    ensures c !in s ==> Split(s, c) == [s]
  {
    if s != "" {
      SplitNone(s[1..], c);
      var rest := Split(s[1..], c);
      assert s == [s[0]] + s[1..];
    }
  }

  lemma {:induction false} SplitConcat(x: string, y: string, c: char)
    ensures Split(x + [c] + y, c) == Split(x, c) + Split(y, c)
  {
    var s := x + [c] + y;
    if x == "" {
      assert s[1..] == y;
    } else {
      SplitConcat(x[1..], y, c);
      assert s[0] == x[0] && s[1..] == x[1..] + [c] + y;
      PutFirstConcat(x[0], Split(x[1..], c), Split(y, c), c);
    }
  }

  lemma {:induction false} JoinConcat(a: seq<string>, b: seq<string>, c: char)
    requires a != [] && b != []
    ensures Join(a + b, c) == Join(a, c) + [c] + Join(b, c)
  {
    if |a| == 1 {
      assert (a + b)[1..] == b;
    } else {
      JoinConcat(a[1..], b, c);
      assert (a + b)[1..] == a[1..] + b;
    }
  }

  lemma {:induction false} JoinOfSplit(s: string, c: char)
    ensures Join(Split(s, c), c) == s
  {
    if s != "" {
      JoinOfSplit(s[1..], c);
      assert s == [s[0]] + s[1..];
    }
  }

  lemma {:induction false} SplitOfJoin(parts: seq<string>, c: char)
    requires parts != [] && NoneHas(parts, c)
    ensures Split(Join(parts, c), c) == parts
  {
    SplitNone(parts[0], c);
    if |parts| > 1 {
      assert NoneHas(parts[1..], c);
      SplitOfJoin(parts[1..], c);
      SplitConcat(parts[0], Join(parts[1..], c), c);
    }
  }

  // ----- searching and trimming

  predicate HasPrefix(s: string, t: string) {
    t <= s
  }

  predicate HasSuffix(s: string, t: string) {
    |t| <= |s| && s[|s| - |t|..] == t
  }

  predicate OccursAt(s: string, t: string, i: nat) {
    i + |t| <= |s| && s[i..i + |t|] == t
  }

  predicate Contains(s: string, t: string) {
    exists i :: 0 <= i <= |s| && OccursAt(s, t, i)
  }

  /** unicode.IsSpace */
  predicate IsSpace(c: char) {
    || c == ' ' || '\t' <= c <= '\r' || c == '\U{85}' || c == '\U{A0}' || c == '\U{1680}' || '\U{2000}' <= c <= '\U{200A}'
    || c == '\U{2028}' || c == '\U{2029}' || c == '\U{202F}' || c == '\U{205F}' || c == '\U{3000}'
  }

  /** The characters of White_Space in Unicode. */
  lemma SpaceIs(c: char)
    ensures IsSpace(c)
       <==> c as int in {9, 10, 11, 12, 13, 32, 0x85, 0xA0, 0x1680, 0x2000, 0x2001, 0x2002, 0x2003, 0x2004, 0x2005, 0x2006,
                         0x2007, 0x2008, 0x2009, 0x200A, 0x2028, 0x2029, 0x202F, 0x205F, 0x3000}
  {
  }

  predicate NoSpace(s: string) {
    forall i :: 0 <= i < |s| ==> !IsSpace(s[i])
  }

  function TrimLeft(s: string): (t: string)
    ensures |t| <= |s|
  {
    if s != "" && IsSpace(s[0]) then TrimLeft(s[1..]) else s
  }

  function TrimRight(s: string): (t: string)
    ensures |t| <= |s|
  {
    if s != "" && IsSpace(s[|s| - 1]) then TrimRight(s[..|s| - 1]) else s
  }

  function TrimSpace(s: string): (t: string)
    ensures NoSpace(s) ==> t == s
  {
    TrimRight(TrimLeft(s))
  }

  predicate AllSpace(s: string) {
    forall i :: 0 <= i < |s| ==> IsSpace(s[i])
  }

  /** Neither end is white space. */
  predicate Tight(s: string) {
    s != "" ==> !IsSpace(s[0]) && !IsSpace(s[|s| - 1])
  }

  lemma {:induction false} TrimLeftIs(s: string) returns (a: string)
    ensures AllSpace(a) && s == a + TrimLeft(s)
  {
    if s != "" && IsSpace(s[0]) {
      var b := TrimLeftIs(s[1..]);
      a := [s[0]] + b;
      assert s == [s[0]] + s[1..];
    } else {
      a := "";
    }
  }

  lemma {:induction false} TrimRightIs(s: string) returns (b: string)
    ensures AllSpace(b) && s == TrimRight(s) + b
  {
    if s != "" && IsSpace(s[|s| - 1]) {
      var a := TrimRightIs(s[..|s| - 1]);
      b := a + [s[|s| - 1]];
      assert s == s[..|s| - 1] + [s[|s| - 1]];
    } else {
      b := "";
    }
  }

  lemma {:induction false} TrimRightStops(s: string)
    ensures var t := TrimRight(s); t != "" ==> !IsSpace(t[|t| - 1]) && t[0] == s[0]
  {
    if s != "" && IsSpace(s[|s| - 1]) {
      TrimRightStops(s[..|s| - 1]);
    }
  }

  lemma {:induction false} TrimFront(a: string, t: string)
    requires AllSpace(a) && (t != "" ==> !IsSpace(t[0]))
    ensures TrimLeft(a + t) == t
  {
    if a == "" {
      assert a + t == t;
    } else {
      assert (a + t)[1..] == a[1..] + t;
      TrimFront(a[1..], t);
    }
  }

  lemma {:induction false} TrimBack(t: string, b: string)
    requires AllSpace(b) && Tight(t)
    ensures TrimRight(t + b) == t
  {
    if b == "" {
      assert t + b == t;
    } else {
      assert (t + b)[..|t + b| - 1] == t + b[..|b| - 1];
      TrimBack(t, b[..|b| - 1]);
    }
  }

  lemma {:induction false} TrimAll(s: string)
    requires AllSpace(s)
    ensures TrimLeft(s) == ""
  {
    if s != "" {
      TrimAll(s[1..]);
    }
  }

  lemma TrimmedIs(s: string) returns (a: string, b: string)
    ensures AllSpace(a) && AllSpace(b) && s == a + TrimSpace(s) + b && Tight(TrimSpace(s))
  {
    var u := TrimLeft(s);
    TrimLeftStops(s);
    TrimRightStops(u);
    a := TrimLeftIs(s);
    b := TrimRightIs(u);
    hide TrimLeft, TrimRight, AllSpace;
    assert s == a + (TrimRight(u) + b);
  }

  lemma TrimmedOnly(a: string, t: string, b: string)
    requires AllSpace(a) && AllSpace(b) && Tight(t)
    ensures TrimSpace(a + t + b) == t
  {
    if t == "" {
      assert a + t + b == a + b;
      TrimAll(a + b);
    } else {
      assert a + t + b == a + (t + b);
      TrimFront(a, t + b);
      TrimBack(t, b);
    }
  }

  /** Trimming takes white space off both ends, all of it and nothing else. */
  lemma TrimSpaceIff(s: string, t: string)
    ensures TrimSpace(s) == t <==> Tight(t) && exists a, b :: AllSpace(a) && AllSpace(b) && s == a + t + b
  {
    hide *;
    var a, b := TrimmedIs(s);
    if Tight(t) && exists c, d :: AllSpace(c) && AllSpace(d) && s == c + t + d {
      var c, d :| AllSpace(c) && AllSpace(d) && s == c + t + d;
      TrimmedOnly(c, t, d);
    }
  }

  /** One trailing blank is all that is trimmed from a text that starts and ends with a word. */
  lemma TrimTrailing(s: string)
    requires s != "" && !IsSpace(s[0]) && !IsSpace(s[|s| - 1])
    ensures TrimSpace(s + " ") == s
  {
    var t := s + " ";
    assert t[0] == s[0] && TrimLeft(t) == t;
    assert t[|t| - 1] == ' ' && t[..|t| - 1] == s;
    assert TrimRight(t) == TrimRight(s) == s;
  }

  /** Maximal runs of characters that are not white space. */
  function Fields(s: string): (fs: seq<string>)
    ensures forall i :: 0 <= i < |fs| ==> fs[i] != "" && NoSpace(fs[i])
    decreases |s|
  {
    var t := TrimLeft(s);
    if t == "" then []
    else
      TrimLeftStops(s);
      var n := Run(t);
      [t[..n]] + Fields(t[n..])
  }

  lemma {:induction false} TrimLeftStops(s: string)
    ensures TrimLeft(s) != "" ==> !IsSpace(TrimLeft(s)[0])
  {
    if s != "" && IsSpace(s[0]) {
      TrimLeftStops(s[1..]);
    }
  }

  /** Length of the leading run without white space. */
  function Run(s: string): (n: nat)
    ensures n <= |s| && NoSpace(s[..n])
    ensures n < |s| ==> IsSpace(s[n])
    ensures s != "" && !IsSpace(s[0]) ==> n > 0
  {
    if s == "" || IsSpace(s[0]) then 0
    else
      var m := Run(s[1..]);
      assert s[..1 + m] == [s[0]] + s[1..][..m];
      1 + m
  }

  /** The fields in order, with white space before, between and behind them, and nothing else. */
  ghost predicate Spaced(s: string, fs: seq<string>)
    decreases |fs|
  {
    if fs == [] then AllSpace(s)
    else
      exists a, rest ::
        && AllSpace(a) && s == a + fs[0] + rest && fs[0] != "" && NoSpace(fs[0]) && (rest == "" || IsSpace(rest[0]))
        && Spaced(rest, fs[1..])
  }

  lemma {:induction false} FieldsSpaced(s: string)
    ensures Spaced(s, Fields(s))
    decreases |s|
  {
    var t := TrimLeft(s);
    var a := TrimLeftIs(s);
    if t != "" {
      TrimLeftStops(s);
      var n := Run(t);
      var word, rest := t[..n], t[n..];
      FieldsSpaced(rest);
      assert Fields(s) == [word] + Fields(rest);
      hide Fields, TrimLeft, Run;
      assert s == a + word + rest;
      SpacedMore(a, word, rest, Fields(rest));
    }
  }

  lemma SpacedMore(a: string, word: string, rest: string, fs: seq<string>)
    requires AllSpace(a) && word != "" && NoSpace(word) && (rest == "" || IsSpace(rest[0])) && Spaced(rest, fs)
    ensures Spaced(a + word + rest, [word] + fs)
  {
    assert ([word] + fs)[1..] == fs;
    hide AllSpace, NoSpace;
  }

  lemma {:induction false} RunOfWord(w: string, rest: string)
    requires NoSpace(w)
    ensures Run(w + " " + rest) == |w|
  {
    var s := w + " " + rest;
    if w != "" {
      assert s[0] == w[0] && s[1..] == w[1..] + " " + rest;
      RunOfWord(w[1..], rest);
    }
  }

  /** One word and one blank at the front are one field. */
  lemma FieldsWord(w: string, rest: string)
    requires w != "" && NoSpace(w)
    ensures Fields(w + " " + rest) == [w] + Fields(rest)
  {
    var s := w + " " + rest;
    assert s[0] == w[0];
    var n := Run(s);
    RunOfWord(w, rest);
    assert s[..n] == w && s[n..] == " " + rest;
    assert (" " + rest)[1..] == rest;
    assert TrimLeft(" " + rest) == TrimLeft(rest);
  }

  /** Words separated by single blanks are the fields. */
  lemma {:induction false} FieldsOfWords(words: seq<string>)
    requires words != [] && forall i :: 0 <= i < |words| ==> words[i] != "" && NoSpace(words[i])
    ensures Fields(Join(words, ' ')) == words
  {
    if |words| == 1 {
      FieldsLast(words[0]);
    } else {
      FieldsOfWords(words[1..]);
      FieldsWord(words[0], Join(words[1..], ' '));
      assert Join(words, ' ') == words[0] + " " + Join(words[1..], ' ');
    }
  }

  /** Such a line starts and ends with a word and has no line break. */
  lemma {:induction false} WordsShape(words: seq<string>)
    requires words != [] && forall i :: 0 <= i < |words| ==> words[i] != "" && NoSpace(words[i])
    ensures var s := Join(words, ' '); s != "" && !IsSpace(s[0]) && !IsSpace(s[|s| - 1]) && '\n' !in s
  {
    var w := words[0];
    assert forall c :: c in w ==> !IsSpace(c);
    if |words| > 1 {
      WordsShape(words[1..]);
      var rest := Join(words[1..], ' ');
      var s := Join(words, ' ');
      assert s == w + [' '] + rest;
      assert s[0] == w[0] && s[|s| - 1] == rest[|rest| - 1];
    }
  }

  lemma FieldsLast(w: string)
    requires w != "" && NoSpace(w)
    ensures Fields(w) == [w]
  {
    var n := Run(w);
    assert n == |w|;
    assert w[..n] == w && w[n..] == "";
  }

  // ----- order

  /** Byte order of strings. */
  predicate StringLess(a: string, b: string) {
    b != "" && (a == "" || a[0] < b[0] || (a[0] == b[0] && StringLess(a[1..], b[1..])))
  }

  /** The texts agree before position i, and there the first ends or has the smaller character. */
  ghost predicate LessAt(a: string, b: string, i: int) {
    0 <= i <= |a| && i < |b| && (forall j :: 0 <= j < i ==> a[j] == b[j]) && (i == |a| || a[i] < b[i])
  }

  lemma {:induction false} StringLessIff(a: string, b: string)
    ensures StringLess(a, b) <==> exists i :: LessAt(a, b, i)
  {
    if b != "" && (a == "" || a[0] < b[0]) {
      assert LessAt(a, b, 0);
    } else if a != "" && b != "" && a[0] == b[0] {
      var c, d := a[1..], b[1..];
      StringLessIff(c, d);
      if i :| LessAt(c, d, i) {
        assert forall j :: 0 < j <= i ==> a[j] == c[j - 1] && b[j] == d[j - 1];
        assert LessAt(a, b, i + 1);
      }
      if i :| LessAt(a, b, i) {
        assert LessAt(c, d, i - 1);
      }
    } else if a != "" && b != "" {
      assert forall i :: LessAt(a, b, i) ==> i == 0;
    }
  }

  lemma {:induction false} StringLessTotal(a: string, b: string)
    ensures !(StringLess(a, b) && StringLess(b, a))
    ensures !StringLess(a, b) && !StringLess(b, a) <==> a == b
  {
    if a != "" && b != "" {
      StringLessTotal(a[1..], b[1..]);
      assert a == [a[0]] + a[1..] && b == [b[0]] + b[1..];
    }
  }

  lemma {:induction false} StringLessSplits(a: string, b: string, c: string)
    requires StringLess(a, c)
    ensures StringLess(a, b) || StringLess(b, c)
  {
    if a != "" && b != "" && a[0] == c[0] == b[0] {
      StringLessSplits(a[1..], b[1..], c[1..]);
    }
  }

  lemma StringOrder()
    ensures StrictWeak(StringLess)
  {
    forall a, b ensures StringLess(a, b) ==> !StringLess(b, a) {
      StringLessTotal(a, b);
    }
    forall a, b, c ensures StringLess(a, c) ==> StringLess(a, b) || StringLess(b, c) {
      if StringLess(a, c) {
        StringLessSplits(a, b, c);
      }
    }
  }
}
