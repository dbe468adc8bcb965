/** The text of IPv4 addresses and prefixes: what netip prints and what it accepts. */
module CidrText {
  import opened Wrappers
  import opened Ipv4
  import opened Text

  function Octets(a: Addr): (parts: seq<string>)
    ensures |parts| == 4
  {
    var b := Bytes(a);
    [Itoa(b[0]), Itoa(b[1]), Itoa(b[2]), Itoa(b[3])]
  }

  /** Dotted quad. */
  function AddrString(a: Addr): string {
    Join(Octets(a), '.')
  }

  function PrefixString(p: Prefix): string {
    AddrString(p.addr) + "/" + Itoa(p.bits)
  }

  function ParseOctet(s: string): Option<nat> {
    match ParseNat(s)
    case Some(n) => if n <= 255 then Some(n) else None
    case None => None
  }

  /** Four decimal fields of at most 255 without leading zeros. */
  function ParseAddr4(s: string): Option<Addr> {
    var parts := Split(s, '.');
    if |parts| != 4 then None
    else
      match (ParseOctet(parts[0]), ParseOctet(parts[1]), ParseOctet(parts[2]), ParseOctet(parts[3]))
      case (Some(a), Some(b), Some(c), Some(d)) => Some(FromBytes([a, b, c, d]))
      case _ => None
  }

  /** Position of the last slash, or |s|. */
  function LastSlash(s: string): (i: nat)
    ensures i <= |s|
    ensures i < |s| ==> s[i] == '/' && '/' !in s[i + 1..]
    ensures i == |s| ==> '/' !in s
  {
    if s == "" then 0
    else
      var i := LastSlash(s[1..]);
      assert s == [s[0]] + s[1..];
      assert i < |s[1..]| ==> s[i + 2..] == s[1..][i + 1..];
      if i < |s| - 1 then i + 1 else if s[0] == '/' then 0 else |s|
  }

  /** An IPv4 prefix as netip.ParsePrefix accepts it. */
  function ParsePrefix4(s: string): Option<Prefix> {
    var i := LastSlash(s);
    if i == |s| then None
    else
      match (ParseAddr4(s[..i]), ParseNat(s[i + 1..]))
      case (Some(a), Some(n)) => if n <= 32 then Some(Prefix(a, n)) else None
      case _ => None
  }

  // ----- the grammar is exactly the printed texts

  lemma OctetsHaveNoDot(a: Addr)
    ensures NoneHas(Octets(a), '.')
  {
  }

  lemma ParseAddr4Iff(s: string, a: Addr)
    ensures ParseAddr4(s) == Some(a) <==> s == AddrString(a)
  {
    if ParseAddr4(s) == Some(a) {
      var parts := Split(s, '.');
      var b := [ParseNat(parts[0]).value, ParseNat(parts[1]).value, ParseNat(parts[2]).value, ParseNat(parts[3]).value];
      BytesOfFromBytes(b);
      forall i | 0 <= i < 4 ensures parts[i] == Itoa(b[i]) {
        ParseNatIff(parts[i], b[i]);
      }
      assert parts == Octets(a);
      JoinOfSplit(s, '.');
    }
    if s == AddrString(a) {
      OctetsHaveNoDot(a);
      SplitOfJoin(Octets(a), '.');
      var b := Bytes(a);
      forall i | 0 <= i < 4 ensures ParseNat(Octets(a)[i]) == Some(b[i]) {
        ParseNatIff(Octets(a)[i], b[i]);
      }
      FromBytesOfBytes(a);
      assert [b[0], b[1], b[2], b[3]] == b;
    }
  }

  /** netip.ParsePrefix accepts an IPv4 prefix exactly when it is the text that String prints for it. */
  lemma ParsePrefix4Iff(s: string, p: Prefix)
    ensures ParsePrefix4(s) == Some(p) <==> s == PrefixString(p)
  {
    if ParsePrefix4(s) == Some(p) {
      AcceptedIsPrinted(s, p);
    }
    if s == PrefixString(p) {
      PrintedIsAccepted(p);
    }
  }

  lemma AcceptedIsPrinted(s: string, p: Prefix)
    requires ParsePrefix4(s) == Some(p)
    ensures s == PrefixString(p)
  {
    hide ParseAddr4, ParseNat, AddrString, LastSlash;
    var i := LastSlash(s);
    ParseAddr4Iff(s[..i], p.addr);
    ParseNatIff(s[i + 1..], p.bits);
    assert s == s[..i] + "/" + s[i + 1..];
  }

  lemma PrintedIsAccepted(p: Prefix)
    ensures ParsePrefix4(PrefixString(p)) == Some(p)
  {
    hide ParseAddr4, ParseNat, AddrString, Itoa, LastSlash;
    var s, n := PrefixString(p), |AddrString(p.addr)|;
    assert s[n] == '/' && s[..n] == AddrString(p.addr) && s[n + 1..] == Itoa(p.bits);
    assert '/' !in Itoa(p.bits);
    LastSlashUnique(s, n);
    ParseAddr4Iff(s[..n], p.addr);
    ParseNatIff(s[n + 1..], p.bits);
  }

  lemma {:induction false} LastSlashUnique(s: string, n: nat)
    requires n < |s| && s[n] == '/' && '/' !in s[n + 1..]
    ensures LastSlash(s) == n
  {
    if n > 0 {
      assert s[1..][n..] == s[n + 1..];
      LastSlashUnique(s[1..], n - 1);
    }
  }

  lemma PrefixStringInjective(p: Prefix, q: Prefix)
    requires PrefixString(p) == PrefixString(q)
    ensures p == q
  {
    ParsePrefix4Iff(PrefixString(p), p);
    ParsePrefix4Iff(PrefixString(p), q);
  }

  lemma AddrStringInjective(a: Addr, b: Addr)
    requires AddrString(a) == AddrString(b)
    ensures a == b
  {
    ParseAddr4Iff(AddrString(a), a);
    ParseAddr4Iff(AddrString(a), b);
  }

  // ----- what the text of an address means

  /** The four numbers of a dotted text. */
  ghost function Parts(a: Addr): (parts: seq<string>)
    ensures |parts| == 4
  {
    OctetsHaveNoDot(a);
    SplitOfJoin(Octets(a), '.');
    Split(AddrString(a), '.')
  }

  lemma PartsAreOctets(a: Addr)
    ensures Parts(a) == Octets(a)
  {
    OctetsHaveNoDot(a);
    SplitOfJoin(Octets(a), '.');
  }

  /** The four numbers are the address written to base 256, most significant first. */
  lemma PartsValue(a: Addr)
    ensures |Parts(a)| == 4
    ensures forall i :: 0 <= i < 4 ==> ParseOctet(Parts(a)[i]).Some?
    ensures var v := (i: int) requires 0 <= i < 4 => ParseOctet(Parts(a)[i]).value;
            a == v(0) * 0x100_0000 + v(1) * 0x1_0000 + v(2) * 0x100 + v(3)
  {
    PartsAreOctets(a);
    FromBytesOfBytes(a);
    forall i | 0 <= i < 4 ensures ParseOctet(Octets(a)[i]) == Some(Bytes(a)[i]) {
      ParseNatIff(Octets(a)[i], Bytes(a)[i]);
    }
  }

  lemma SamePartsIff(a: Addr, x: Addr, i: nat)
    requires i <= 4
    ensures Parts(x)[..i] == Parts(a)[..i] <==> Bytes(x)[..i] == Bytes(a)[..i]
  {
    PartsAreOctets(a);
    PartsAreOctets(x);
    hide Parts, AddrString, Itoa, Bytes;
    var p, q, b, c := Octets(x), Octets(a), Bytes(x), Bytes(a);
    forall j | 0 <= j < 4 ensures p[j] == q[j] <==> b[j] == c[j] {
      if p[j] == q[j] {
        ItoaInjective(b[j], c[j]);
      }
    }
    hide *;
    FrontsAgree(p, q, i);
    FrontsAgree(b, c, i);
  }

  lemma FrontsAgree<T>(s: seq<T>, t: seq<T>, i: nat)
    requires i <= |s| == |t|
    ensures s[..i] == t[..i] <==> forall j :: 0 <= j < i ==> s[j] == t[j]
  {
    if s[..i] == t[..i] {
      forall j | 0 <= j < i ensures s[j] == t[j] {
        assert s[..i][j] == t[..i][j];
      }
    }
  }

  /** An address is in a block exactly if it has the same first address. */
  lemma InIffFloor(x: Addr, p: Prefix)
    ensures In(x, p) <==> Floor(x, p.bits) == First(p)
  {
    if In(x, p) {
      FloorUnique(x, p.addr, p.bits);
    }
  }

  /** The number that the first i bytes are. */
  ghost function Front(b: seq<int>, i: nat): int
    requires i <= |b|
  {
    if i == 0 then 0 else 256 * Front(b, i - 1) + b[i - 1]
  }

  lemma {:induction false} FrontDecides(b: seq<int>, c: seq<int>, i: nat)
    requires i <= |b| == |c| && forall j :: 0 <= j < |b| ==> 0 <= b[j] < 256 && 0 <= c[j] < 256
    ensures b[..i] == c[..i] <==> Front(b, i) == Front(c, i)
  {
    if i > 0 {
      FrontDecides(b, c, i - 1);
      assert b[..i] == b[..i - 1] + [b[i - 1]] && c[..i] == c[..i - 1] + [c[i - 1]];
      assert b[..i] == c[..i] <==> b[..i - 1] == c[..i - 1] && b[i - 1] == c[i - 1] by {
        assert b[..i] == c[..i] ==> b[..i][..i - 1] == c[..i][..i - 1] && b[..i][i - 1] == c[..i][i - 1];
      }
    }
  }

  lemma OctetSizes()
    ensures Size(0) == 0x1_0000_0000 && Size(8) == 0x100_0000 && Size(16) == 0x1_0000 && Size(24) == 0x100 && Size(32) == 1
  {
    SizeZero();
    assert Size(24) == 256;
    assert Size(16) == 0x1_0000;
    assert Size(8) == 0x100_0000;
  }

  lemma FrontsOf(b: seq<int>)
    requires |b| == 4
    ensures Front(b, 0) == 0 && Front(b, 1) == b[0] && Front(b, 2) == b[0] * 0x100 + b[1]
    ensures Front(b, 3) == b[0] * 0x1_0000 + b[1] * 0x100 + b[2]
    ensures Front(b, 4) == b[0] * 0x100_0000 + b[1] * 0x1_0000 + b[2] * 0x100 + b[3]
  {
    assert Front(b, 1) == b[0];
    assert Front(b, 2) == 256 * Front(b, 1) + b[1];
    assert Front(b, 3) == 256 * Front(b, 2) + b[2];
  }

  lemma FrontBounds(b: seq<int>, a: int, i: nat)
    requires |b| == 4 && (forall j :: 0 <= j < 4 ==> 0 <= b[j] < 256) && i <= 4
    requires a == b[0] * 0x100_0000 + b[1] * 0x1_0000 + b[2] * 0x100 + b[3]
    ensures Front(b, i) * Size(8 * i) <= a < Front(b, i) * Size(8 * i) + Size(8 * i)
  {
    hide *;
    OctetSizes();
    FrontsOf(b);
    var c, d, e, f := b[0], b[1], b[2], b[3];
    if i == 0 {
      assert Front(b, i) == 0;
    } else if i == 1 {
      assert Front(b, i) == c;
    } else if i == 2 {
      assert Front(b, i) == c * 0x100 + d;
    } else if i == 3 {
      assert Front(b, i) == c * 0x1_0000 + d * 0x100 + e;
    } else {
      assert Front(b, i) == a;
    }
  }

  /** The block of 8 * i bits starts at the number that the first i bytes are, followed by zeros. */
  lemma FloorIsFront(a: Addr, i: nat)
    requires i <= 4
    ensures Floor(a, 8 * i) == Front(Bytes(a), i) * Size(8 * i)
  {
    hide *;
    FromBytesOfBytes(a);
    FrontBounds(Bytes(a), a, i);
    var k := FloorMultiple(a, 8 * i);
    NearMultiples(k, Front(Bytes(a), i), Size(8 * i), a);
  }

  lemma NearMultiples(p: int, q: int, s: int, a: int)
    requires p * s <= a < p * s + s && q * s <= a < q * s + s
    ensures p == q
  {
    assert (p - q) * s == p * s - q * s;
    MultipleGap(p - q, s);
  }

  lemma SameBytesIff(a: Addr, x: Addr, i: nat)
    requires i <= 4
    ensures Bytes(x)[..i] == Bytes(a)[..i] <==> Floor(x, 8 * i) == Floor(a, 8 * i)
  {
    hide *;
    FloorIsFront(a, i);
    FloorIsFront(x, i);
    FrontDecides(Bytes(x), Bytes(a), i);
    SameFactor(Front(Bytes(x), i), Front(Bytes(a), i), Size(8 * i));
  }

  lemma SameFactor(p: int, q: int, s: int)
    requires s > 0
    ensures p * s == q * s <==> p == q
  {
    if p * s == q * s {
      assert (p - q) * s == 0;
      MultipleGap(p - q, s);
    }
  }

  /** What CIDR notation means: a prefix of 8, 16, 24 or 32 bits has exactly the addresses whose texts agree with its own in
      the first 1, 2, 3 or 4 numbers, and one of 0 bits has all. */
  lemma OctetsDecideBlock(a: Addr, x: Addr, i: nat)
    requires i <= 4
    ensures |Parts(a)| == |Parts(x)| == 4
    ensures Parts(x)[..i] == Parts(a)[..i] <==> In(x, Prefix(a, 8 * i))
  {
    PartsAreOctets(a);
    PartsAreOctets(x);
    SamePartsIff(a, x, i);
    SameBytesIff(a, x, i);
    InIffFloor(x, Prefix(a, 8 * i));
  }

  /** Addresses are ordered by the first number in which their texts differ. */
  lemma OctetsDecideOrder(a: Addr, b: Addr)
    ensures |Parts(a)| == |Parts(b)| == 4
    ensures a < b <==> exists i :: 0 <= i < 4 && Parts(a)[..i] == Parts(b)[..i] && Smaller(Parts(a)[i], Parts(b)[i])
  {
    PartsAreOctets(a);
    PartsAreOctets(b);
    forall i | 0 <= i < 4
      ensures Smaller(Parts(a)[i], Parts(b)[i]) <==> Bytes(a)[i] < Bytes(b)[i]
      ensures Parts(a)[..i] == Parts(b)[..i] <==> Bytes(a)[..i] == Bytes(b)[..i]
    {
      ParseNatIff(Octets(a)[i], Bytes(a)[i]);
      ParseNatIff(Octets(b)[i], Bytes(b)[i]);
      SamePartsIff(b, a, i);
    }
    hide Parts, Smaller;
    BytesOrder(a, b);
  }

  ghost predicate Smaller(s: string, t: string) {
    ParseNat(s).Some? && ParseNat(t).Some? && ParseNat(s).value < ParseNat(t).value
  }

  lemma BytesOrder(a: Addr, b: Addr)
    ensures a < b <==> exists i :: 0 <= i < 4 && Bytes(a)[..i] == Bytes(b)[..i] && Bytes(a)[i] < Bytes(b)[i]
  {
    FromBytesOfBytes(a);
    FromBytesOfBytes(b);
    var c, d := Bytes(a), Bytes(b);
    hide Bytes;
    if a < b {
      var i := if c[0] != d[0] then 0 else if c[1] != d[1] then 1 else if c[2] != d[2] then 2 else 3;
      assert c[..i] == d[..i] && c[i] < d[i];
    }
    if i :| 0 <= i < 4 && c[..i] == d[..i] && c[i] < d[i] {
      FrontsAgree(c, d, i);
    }
  }

  /** An address text, a slash and a number denote the addresses that agree with the first in that many leading bits; a
      number above 32 denotes nothing. */
  lemma TextDenotes(a: Addr, n: nat, x: Addr)
    ensures var read := ParsePrefix4(AddrString(a) + "/" + Itoa(n));
            && (read.Some? <==> n <= 32)
            && (n <= 32 ==> (In(x, read.value) <==> x / Size(n) == a / Size(n)))
  {
    hide ParseAddr4, ParseNat, AddrString, Itoa, LastSlash, Floor, Size;
    var s, k := AddrString(a) + "/" + Itoa(n), |AddrString(a)|;
    assert s[k] == '/' && s[..k] == AddrString(a) && s[k + 1..] == Itoa(n);
    assert '/' !in Itoa(n);
    LastSlashUnique(s, k);
    ParseAddr4Iff(s[..k], a);
    ParseNatIff(s[k + 1..], n);
    if n <= 32 {
      InIffFloor(x, Prefix(a, n));
      FloorClearsHostBits(x, n);
      FloorClearsHostBits(a, n);
      SameQuotient(x, a, Size(n));
    }
  }

  lemma SameQuotient(x: nat, a: nat, s: nat)
    requires s > 0
    ensures x - x % s == a - a % s <==> x / s == a / s
  {
    assert (x / s - a / s) * s == (x - x % s) - (a - a % s);
    if x - x % s == a - a % s {
      MultipleGap(x / s - a / s, s);
    }
  }

  // ----- the characters of a printed prefix

  predicate Dotted(s: string) {
    forall i :: 0 <= i < |s| ==> IsDigit(s[i]) || s[i] == '.'
  }

  lemma AddrStringShape(a: Addr)
    ensures var s := AddrString(a); Dotted(s) && |s| <= 15 && s != "" && IsDigit(s[0])
  {
    var o, b := Octets(a), Bytes(a);
    forall i | 0 <= i < 4 ensures |o[i]| <= 3 {
      ItoaShort(b[i]);
    }
    assert o[1..] == [o[1], o[2], o[3]] && o[1..][1..] == [o[2], o[3]] && o[1..][1..][1..] == [o[3]];
    assert AddrString(a) == o[0] + "." + (o[1] + "." + (o[2] + "." + o[3]));
  }

  lemma PrefixStringShape(p: Prefix)
    ensures var s := PrefixString(p);
            |s| <= 18 && '/' in s && ':' !in s && '\n' !in s && NoSpace(s) && s != "" && IsDigit(s[0])
  {
    AddrStringShape(p.addr);
    ItoaShort(p.bits);
    assert PrefixString(p)[|AddrString(p.addr)|] == '/';
  }
}
