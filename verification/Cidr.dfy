/**
  IPv4 CIDR blocks (RFC 4632, section 3.1): a block of 2^(32 - prefix) addresses whose base is a
  multiple of its size. Blocks are nested or disjoint, never partly overlapping.
 */
module Cidr {
  function Pow2(n: nat): (r: nat)
    ensures 1 <= r
  {
    if n == 0 then 1 else 2 * Pow2(n - 1)
  }

  function Size(prefix: nat): (r: nat)
    requires prefix <= 32
    ensures 1 <= r
  {
    Pow2(32 - prefix)
  }

  /** The lowest bits of x are all zero: x is a multiple of 2^bits. */
  predicate Aligned(x: nat, bits: nat) {
    bits == 0 || (x % 2 == 0 && Aligned(x / 2, bits - 1))
  }

  /** x & ((1 << bits) - 1). */
  function LowBits(x: nat, bits: nat): (r: nat)
    ensures r < Pow2(bits) && r <= x
  {
    if bits == 0 then 0 else x % 2 + 2 * LowBits(x / 2, bits - 1)
  }

  datatype Block = Block(base: nat, prefix: nat)

  predicate ValidBlock(b: Block) {
    && b.prefix <= 32
    && Aligned(b.base, 32 - b.prefix)
    && b.base + Size(b.prefix) <= Pow2(32)
  }

  type Net = b: Block | ValidBlock(b) witness Block(0, 32)

  function Last(n: Net): (r: nat)
    ensures n.base <= r == n.base + Size(n.prefix) - 1
  {
    n.base + Size(n.prefix) - 1
  }

  predicate Has(n: Net, ip: nat) {
    n.base <= ip <= Last(n)
  }

  predicate Overlaps(a: Net, b: Net) {
    a.base <= Last(b) && b.base <= Last(a)
  }

  predicate SubnetOf(a: Net, b: Net) {
    b.base <= a.base && Last(a) <= Last(b)
  }

  predicate StrictlyInside(a: Net, b: Net) {
    SubnetOf(a, b) && a != b
  }

  lemma MulMonotone(a: int, b: int, s: nat)
    requires a <= b
    ensures a * s <= b * s
  {
  }

  lemma MultipleOf(k: int, s: int)
    requires 0 < s
    ensures (k * s) % s == 0
  {
    var q, r := (k * s) / s, (k * s) % s;
    assert k * s == q * s + r && 0 <= r < s;
    assert (k - q) * s == r;
    if k - q >= 1 { MulMonotone(1, k - q, s); }
    if k - q <= -1 { MulMonotone(k - q, -1, s); }
  }

  lemma HalfOfMultiple(x: nat, s: nat)
    requires 0 < s
    ensures x % (2 * s) == 0 <==> x % 2 == 0 && (x / 2) % s == 0
  {
    if x % (2 * s) == 0 {
      var k := x / (2 * s);
      assert x == 2 * (k * s);
      MultipleOf(k, s);
    }
    if x % 2 == 0 && (x / 2) % s == 0 {
      var k := (x / 2) / s;
      assert x == k * (2 * s);
      MultipleOf(k, 2 * s);
    }
  }

  /** Alignment in the words of arithmetic. */
  lemma {:induction false} AlignedIff(x: nat, bits: nat)
    ensures Aligned(x, bits) <==> x % Pow2(bits) == 0
    decreases bits
  {
    if bits > 0 {
      AlignedIff(x / 2, bits - 1);
      HalfOfMultiple(x, Pow2(bits - 1));
    }
  }

  lemma {:induction false} AlignedZero(bits: nat)
    ensures Aligned(0, bits)
    decreases bits
  {
    if bits > 0 { AlignedZero(bits - 1); }
  }

  /** Two different multiples of 2^bits are at least that far apart. */
  lemma {:induction false} AlignedApart(x: nat, y: nat, bits: nat)
    requires Aligned(x, bits) && Aligned(y, bits) && x < y
    ensures x + Pow2(bits) <= y
    decreases bits
  {
    if bits > 0 { AlignedApart(x / 2, y / 2, bits - 1); }
  }

  lemma {:induction false} AlignedNext(x: nat, bits: nat)
    requires Aligned(x, bits)
    ensures Aligned(x + Pow2(bits), bits)
    decreases bits
  {
    if bits > 0 {
      AlignedNext(x / 2, bits - 1);
      assert (x + Pow2(bits)) / 2 == x / 2 + Pow2(bits - 1);
    }
  }

  lemma {:induction false} AlignedFewer(x: nat, bits: nat, fewer: nat)
    requires fewer <= bits && Aligned(x, bits)
    ensures Aligned(x, fewer)
    decreases bits
  {
    if fewer > 0 { AlignedFewer(x / 2, bits - 1, fewer - 1); }
  }

  /** Clearing the low bits gives the last multiple up to x. */
  lemma {:induction false} AlignedBelow(x: nat, bits: nat)
    ensures Aligned(x - LowBits(x, bits), bits)
    decreases bits
  {
    if bits > 0 {
      AlignedBelow(x / 2, bits - 1);
      assert (x - LowBits(x, bits)) / 2 == x / 2 - LowBits(x / 2, bits - 1);
    }
  }

  /** The base of a larger block, and the end of it, are also multiples of every smaller size. */
  lemma AlignedToSmaller(base: nat, prefix: nat, smaller: nat)
    requires prefix <= smaller <= 32 && Aligned(base, 32 - prefix)
    ensures Aligned(base, 32 - smaller) && Aligned(base + Size(prefix), 32 - smaller)
  {
    AlignedFewer(base, 32 - prefix, 32 - smaller);
    AlignedNext(base, 32 - prefix);
    AlignedFewer(base + Size(prefix), 32 - prefix, 32 - smaller);
  }

  lemma {:induction false} SizeShrinks(p: nat, q: nat)
    requires p <= q <= 32
    ensures Size(q) <= Size(p)
    ensures p < q ==> Size(q) < Size(p)
    decreases q - p
  {
    if p < q {
      SizeShrinks(p + 1, q);
    }
  }

  /** An overlapping block that is not larger lies inside. */
  lemma OverlapNests(a: Net, b: Net)
    requires Overlaps(a, b) && b.prefix <= a.prefix
    ensures SubnetOf(a, b)
  {
    AlignedToSmaller(b.base, b.prefix, a.prefix);
    SizeShrinks(b.prefix, a.prefix);
    if a.base < b.base {
      AlignedApart(a.base, b.base, 32 - a.prefix);
    }
    AlignedApart(a.base, b.base + Size(b.prefix), 32 - a.prefix);
  }

  /** CIDR blocks are nested or disjoint. */
  lemma Laminar(a: Net, b: Net)
    ensures !Overlaps(a, b) || SubnetOf(a, b) || SubnetOf(b, a)
  {
    if Overlaps(a, b) {
      if b.prefix <= a.prefix { OverlapNests(a, b); } else { OverlapNests(b, a); }
    }
  }

  lemma InsideIsSmaller(a: Net, b: Net)
    requires SubnetOf(a, b)
    ensures b.prefix <= a.prefix
    ensures a != b ==> b.prefix < a.prefix
  {
    if a.prefix < b.prefix { SizeShrinks(a.prefix, b.prefix); }
  }

  /** Blocks of one size are disjoint or equal. */
  lemma SameSizeOverlap(a: Net, b: Net)
    requires Overlaps(a, b) && a.prefix == b.prefix
    ensures a == b
  {
    OverlapNests(a, b);
    OverlapNests(b, a);
  }

  lemma InsideTransitive(a: Net, b: Net, c: Net)
    requires SubnetOf(a, b) && SubnetOf(b, c)
    ensures SubnetOf(a, c)
    ensures a != b || b != c ==> a != c
  {
    InsideIsSmaller(a, b);
    InsideIsSmaller(b, c);
  }

  /** The block of the given size that starts at address zero. */
  function ZeroBlock(prefix: nat): (n: Net)
    requires prefix <= 32
    ensures n.base == 0 && n.prefix == prefix
  {
    AlignedZero(32 - prefix);
    SizeShrinks(0, prefix);
    Block(0, prefix)
  }
}
