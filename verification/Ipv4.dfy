/** IPv4 addresses and CIDR prefixes.

  An address is a 32-bit number, a prefix an address with a length in 0..32, and a
  prefix denotes the block of addresses First(p) .. End(p) - 1. The block that holds an
  address at a given length is found by descending the binary tree of address halves,
  so that everything below is linear arithmetic; FloorClearsHostBits relates that
  descent to the usual masking of the low bits.
 */
module Ipv4 {

  type Addr = a: int | 0 <= a < 0x1_0000_0000

  type Bits = b: int | 0 <= b <= 32

  datatype Prefix = Prefix(addr: Addr, bits: Bits)

  /** Number of addresses in a block of length b, that is 2^(32 - b). */
  function Size(b: Bits): (n: nat)
    ensures n >= 1
    decreases 32 - b
  {
    if b == 32 then 1 else 2 * Size(b + 1)
  }

  lemma SizeZero()
    ensures Size(0) == 0x1_0000_0000
  {
    assert Size(24) == 256;
    assert Size(16) == 0x1_0000;
    assert Size(8) == 0x100_0000;
  }

  lemma {:induction false} SizeBound(b: Bits)
    ensures Size(b) <= 0x1_0000_0000
    ensures b > 0 ==> Size(b) <= 0x8000_0000
  {
    if b == 0 {
      SizeZero();
    } else {
      SizeBound(b - 1);
    }
  }

  lemma SizeHalf(b: Bits)
    requires b < 32
    ensures Size(b) == 2 * Size(b + 1)
  {
  }

  /** First address of the length-b block that holds x. */
  function Floor(x: Addr, b: Bits): (f: Addr)
    ensures f <= x < f + Size(b) <= 0x1_0000_0000
    decreases b
  {
    if b == 0 then
      SizeZero();
      0
    else
      var f := Floor(x, b - 1);
      if x < f + Size(b) then f else f + Size(b)
  }

  function First(p: Prefix): Addr {
    Floor(p.addr, p.bits)
  }

  /** One past the last address of the block. */
  function End(p: Prefix): int {
    First(p) + Size(p.bits)
  }

  /** netip.Prefix.Masked: the same block with the host bits cleared. */
  function Masked(p: Prefix): Prefix {
    Prefix(First(p), p.bits)
  }

  predicate IsMasked(p: Prefix) {
    First(p) == p.addr
  }

  predicate In(x: Addr, p: Prefix) {
    First(p) <= x < End(p)
  }

  /** The block of q lies inside the block of p. */
  predicate Inside(q: Prefix, p: Prefix) {
    First(p) <= First(q) && End(q) <= End(p)
  }

  predicate Disjoint(p: Prefix, q: Prefix) {
    End(p) <= First(q) || End(q) <= First(p)
  }

  const ROOT := Prefix(0, 0)

  // ----- the tree of blocks

  /** Length-b blocks do not overlap: an address inside the block of y has the same block. */
  lemma {:induction false} FloorUnique(x: Addr, y: Addr, b: Bits)
    requires Floor(y, b) <= x < Floor(y, b) + Size(b)
    ensures Floor(x, b) == Floor(y, b)
    decreases b
  {
    if b > 0 {
      FloorUnique(x, y, b - 1);
    }
  }

  /** A longer prefix of x has a block inside that of a shorter prefix of x. */
  lemma {:induction false} FloorDeeper(x: Addr, b: Bits, c: Bits)
    requires b <= c
    ensures Floor(x, b) <= Floor(x, c)
    ensures Floor(x, c) + Size(c) <= Floor(x, b) + Size(b)
    decreases c
  {
    if b < c {
      FloorDeeper(x, b, c - 1);
    }
  }

  lemma FloorFloor(x: Addr, b: Bits, c: Bits)
    requires b <= c
    ensures Floor(Floor(x, c), b) == Floor(x, b)
  {
    FloorDeeper(x, b, c);
    FloorUnique(Floor(x, c), x, b);
  }

  lemma MaskedIsMasked(p: Prefix)
    ensures IsMasked(Masked(p))
    ensures First(Masked(p)) == First(p) && End(Masked(p)) == End(p)
  {
    FloorFloor(p.addr, p.bits, p.bits);
  }

  lemma {:induction false} FloorMultiple(x: Addr, b: Bits) returns (k: int)
    ensures Floor(x, b) == k * Size(b)
    decreases b
  {
    if b == 0 {
      k := 0;
    } else {
      var h := FloorMultiple(x, b - 1);
      k := if x < Floor(x, b - 1) + Size(b) then 2 * h else 2 * h + 1;
      DoubleStep(h, Size(b));
    }
  }

  lemma DoubleStep(h: int, s: int)
    ensures h * (2 * s) == (2 * h) * s
    ensures (2 * h + 1) * s == (2 * h) * s + s
  {
  }

  lemma ModOfMultiple(k: int, s: int, r: int)
    requires 0 <= r < s
    ensures (k * s + r) % s == r
  {
    var q, m := (k * s + r) / s, (k * s + r) % s;
    assert (q - k) * s == r - m;
    MultipleGap(q - k, s);
  }

  lemma MultipleGap(d: int, s: int)
    requires -s < d * s < s
    ensures d == 0
  {
  }

  /** Masking clears the low 32 - b bits: the first address is x rounded down to a multiple of Size(b). */
  lemma FloorClearsHostBits(x: Addr, b: Bits)
    ensures Floor(x, b) == x - x % Size(b)
    ensures Floor(x, b) % Size(b) == 0
  {
    var k := FloorMultiple(x, b);
    ModOfMultiple(k, Size(b), x - Floor(x, b));
    ModOfMultiple(k, Size(b), 0);
  }

  /** Laminarity: of two blocks, the one with the longer prefix is inside the other or apart from it. */
  lemma Laminar(p: Prefix, q: Prefix)
    requires p.bits <= q.bits
    ensures Inside(q, p) || Disjoint(p, q)
  {
    var y := First(q);
    FloorFloor(q.addr, q.bits, q.bits);
    FloorDeeper(y, p.bits, q.bits);
    if !Disjoint(p, q) {
      var z: Addr := if First(p) <= y then y else First(p);
      FloorUnique(z, p.addr, p.bits);
      FloorUnique(z, y, p.bits);
    }
  }

  /** Inclusion of blocks is what the lengths and the masked address say. */
  lemma InsideIff(q: Prefix, p: Prefix)
    ensures Inside(q, p) <==> p.bits <= q.bits && Floor(q.addr, p.bits) == First(p)
  {
    if p.bits <= q.bits {
      FloorDeeper(q.addr, p.bits, q.bits);
      if Inside(q, p) {
        FloorUnique(q.addr, p.addr, p.bits);
      }
    } else {
      SizeMonotone(q.bits, p.bits);
    }
  }

  lemma {:induction false} SizeMonotone(b: Bits, c: Bits)
    requires b < c
    ensures Size(b) > Size(c)
    decreases c - b
  {
    if b + 1 < c {
      SizeMonotone(b + 1, c);
    }
  }

  // ----- halves of a block

  function Left(p: Prefix): Prefix
    requires p.bits < 32
  {
    Prefix(p.addr, p.bits + 1)
  }

  function Right(p: Prefix): Prefix
    requires p.bits < 32 && IsMasked(p)
  {
    assert Size(p.bits) == 2 * Size(p.bits + 1);
    Prefix(p.addr + Size(p.bits + 1), p.bits + 1)
  }

  lemma Halves(p: Prefix)
    requires p.bits < 32 && IsMasked(p)
    ensures IsMasked(Left(p)) && IsMasked(Right(p))
    ensures First(Left(p)) == First(p) && End(Left(p)) == First(Right(p)) && End(Right(p)) == End(p)
  {
    hide Floor, Size;
    SizeHalf(p.bits);
    FloorUnique(Right(p).addr, p.addr, p.bits);
    Descend(Left(p).addr, p.bits);
    Descend(Right(p).addr, p.bits);
  }

  /** One step of the descent. */
  lemma Descend(x: Addr, b: Bits)
    requires b < 32
    ensures Floor(x, b + 1) == if x < Floor(x, b) + Size(b + 1) then Floor(x, b) else Floor(x, b) + Size(b + 1)
  {
  }

  /** A block strictly inside p lies in one of the two halves of p. */
  lemma InsideHalf(q: Prefix, p: Prefix)
    requires IsMasked(p) && IsMasked(q) && Inside(q, p) && q != p
    ensures p.bits < 32 && p.bits < q.bits
    ensures Inside(q, Left(p)) || Inside(q, Right(p))
  {
    InsideIff(q, p);
    Halves(p);
    Laminar(Left(p), q);
    Laminar(Right(p), q);
  }

  function Parent(p: Prefix): Prefix
    requires p.bits > 0
  {
    Masked(Prefix(p.addr, p.bits - 1))
  }

  lemma ParentOfHalf(p: Prefix)
    requires p.bits < 32 && IsMasked(p)
    ensures Parent(Left(p)) == p && Parent(Right(p)) == p
  {
    hide Floor, Size;
    Halves(p);
    FloorUnique(Right(p).addr, p.addr, p.bits);
  }

  // ----- bytes

  /** ipv4ToUint32 on the four bytes of an address, most significant first. */
  function FromBytes(b: seq<int>): (n: Addr)
    requires |b| == 4 && forall i :: 0 <= i < 4 ==> 0 <= b[i] < 256
  {
    b[0] * 0x100_0000 + b[1] * 0x1_0000 + b[2] * 0x100 + b[3]
  }

  /** uint32ToIPv4: the shifts and truncations of the source on an unsigned 32-bit number. */
  function Bytes(n: Addr): (b: seq<int>)
    ensures |b| == 4 && forall i :: 0 <= i < 4 ==> 0 <= b[i] < 256
  {
    [n / 0x100_0000 % 256, n / 0x1_0000 % 256, n / 0x100 % 256, n % 256]
  }

  /** The two conversions are inverse, on every address and on every four bytes, and the first byte counts most. */
  lemma BytesOfFromBytes(b: seq<int>)
    requires |b| == 4 && forall i :: 0 <= i < 4 ==> 0 <= b[i] < 256
    ensures Bytes(FromBytes(b)) == b
    ensures FromBytes(b) == b[0] * 0x100_0000 + b[1] * 0x1_0000 + b[2] * 0x100 + b[3]
  {
    var c, d, e, f := b[0], b[1], b[2], b[3];
    Digits256(c, d, e, f);
    LowByte(0, c);
    LowByte(c, d);
    LowByte(c * 256 + d, e);
    LowByte(c * 0x1_0000 + d * 256 + e, f);
    assert Bytes(FromBytes(b)) == [c, d, e, f];
  }

  lemma LowByte(h: int, d: int)
    requires 0 <= d < 256
    ensures (256 * h + d) % 256 == d
  {
  }

  lemma FromBytesOfBytes(n: Addr)
    ensures FromBytes(Bytes(n)) == n
    ensures n == Bytes(n)[0] * 0x100_0000 + Bytes(n)[1] * 0x1_0000 + Bytes(n)[2] * 0x100 + Bytes(n)[3]
  {
    assert n / 0x1_0000 == n / 0x100_0000 * 256 + n / 0x1_0000 % 256;
    assert n / 0x100 == n / 0x1_0000 * 256 + n / 0x100 % 256;
  }

  lemma Digits256(a: int, b: int, c: int, d: int)
    requires 0 <= a < 256 && 0 <= b < 256 && 0 <= c < 256 && 0 <= d < 256
    ensures var m := a * 0x100_0000 + b * 0x1_0000 + c * 0x100 + d;
            m / 0x100_0000 == a && m / 0x1_0000 == a * 256 + b && m / 0x100 == a * 0x1_0000 + b * 0x100 + c
  {
  }
}
