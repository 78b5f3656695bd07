/** CIDR blocks as the route-domain allocator compares them (section 3.1 of RFC 4632).

    A block is kept as it was written, host bits included; two blocks are compared by
    their leading bits only.  The allocator tests containment both ways round.  The
    results here say why that test is exact: blocks are laminar, so they share an
    address if and only if one contains the other. */
module Cidr {

  datatype Version = V4 | V6

  function Width(v: Version): nat {
    match v
    case V4 => 32
    case V6 => 128
  }

  function Pow2(n: nat): (r: nat)
    ensures r > 0
  {
    if n == 0 then 1 else 2 * Pow2(n - 1)
  }

  datatype Block = Block(version: Version, value: nat, prefixlen: nat)

  datatype Address = Address(version: Version, value: nat)

  predicate WellFormed(b: Block) {
    b.prefixlen <= Width(b.version) && b.value < Pow2(Width(b.version))
  }

  type Cidr = b: Block | WellFormed(b) witness CidrWitness()

  function CidrWitness(): (b: Block)
    ensures WellFormed(b)
  {
    Block(V4, 0, 0)
  }

  /** How many addresses the block spans. */
  function Size(b: Cidr): (r: nat)
    ensures r > 0
  {
    Pow2(Width(b.version) - b.prefixlen)
  }

  /** The address lies in the block. */
  predicate Covers(b: Cidr, a: Address) {
    a.version == b.version && a.value / Size(b) == b.value / Size(b)
  }

  /** `inner in outer`, as the address library decides it: same IP version, no shorter
      prefix, and equal leading bits. */
  predicate Contains(outer: Cidr, inner: Cidr) {
    && inner.version == outer.version
    && outer.prefixlen <= inner.prefixlen
    && inner.value / Size(outer) == outer.value / Size(outer)
  }

  /** The allocator's test: containment tried in both directions. */
  predicate Overlaps(a: Cidr, b: Cidr) {
    Contains(a, b) || Contains(b, a)
  }

  lemma {:induction false} Pow2Sum(a: nat, b: nat)
    ensures Pow2(a + b) == Pow2(a) * Pow2(b)
  {
    if a == 0 {
    } else {
      Pow2Sum(a - 1, b);
      assert Pow2(a + b) == 2 * Pow2(a - 1 + b);
    }
  }

  lemma MoreMultiples(p: nat, q: nat, d: nat)
    requires p < q
    ensures p * d + d <= q * d
  {
    assert q * d == p * d + d + (q - p - 1) * d;
  }

  lemma QuotientUnique(x: nat, d: nat, q: nat, r: nat)
    requires d > 0 && r < d && x == q * d + r
    ensures x / d == q
  {
    var p := x / d;
    assert p * d <= x < p * d + d;
    if p < q {
      MoreMultiples(p, q, d);
    } else if q < p {
      MoreMultiples(q, p, d);
    }
  }

  lemma QuotientOfQuotient(x: nat, m: nat, n: nat)
    requires m > 0 && n > 0
    ensures m * n > 0 && x / m / n == x / (m * n)
  {
    var q, r := x / m, x % m;
    var p, s := q / n, q % n;
    assert x == q * m + r && q == p * n + s;
    assert q * m == p * (m * n) + s * m by {
      assert (p * n + s) * m == p * n * m + s * m;
      assert p * n * m == p * (m * n);
    }
    MoreMultiples(s, n, m);
    assert n * m == m * n;
    QuotientUnique(x, m * n, p, s * m + r);
  }

  /** Addresses with equal leading bits keep equal leading bits under a shorter prefix. */
  lemma ShorterPrefix(outer: Cidr, inner: Cidr, x: nat, y: nat)
    requires inner.version == outer.version && outer.prefixlen <= inner.prefixlen
    requires x / Size(inner) == y / Size(inner)
    ensures x / Size(outer) == y / Size(outer)
  {
    var k := inner.prefixlen - outer.prefixlen;
    Pow2Sum(Width(inner.version) - inner.prefixlen, k);
    QuotientOfQuotient(x, Size(inner), Pow2(k));
    QuotientOfQuotient(y, Size(inner), Pow2(k));
  }

  /** A contained block covers no address that its container misses. */
  lemma ContainedAddresses(outer: Cidr, inner: Cidr, a: Address)
    requires Contains(outer, inner) && Covers(inner, a)
    ensures Covers(outer, a)
  {
    ShorterPrefix(outer, inner, a.value, inner.value);
  }

  /** Laminarity: the containment test is an exact overlap test. */
  lemma OverlapIsSharedAddress(a: Cidr, b: Cidr)
    ensures Overlaps(a, b) <==> exists x: Address :: Covers(a, x) && Covers(b, x)
  {
    if Contains(a, b) {
      var x := Address(b.version, b.value);
      assert Covers(a, x) && Covers(b, x);
    }
    if Contains(b, a) {
      var x := Address(a.version, a.value);
      assert Covers(a, x) && Covers(b, x);
    }
    if x: Address :| Covers(a, x) && Covers(b, x) {
      if a.prefixlen <= b.prefixlen {
        ShorterPrefix(a, b, x.value, b.value);
        assert Contains(a, b);
      } else {
        ShorterPrefix(b, a, x.value, a.value);
        assert Contains(b, a);
      }
    }
  }

  /** Whatever overlaps a block overlaps everything that contains the block. */
  lemma OverlapGrows(outer: Cidr, inner: Cidr, c: Cidr)
    requires Contains(outer, inner) && Overlaps(inner, c)
    ensures Overlaps(outer, c)
  {
    OverlapIsSharedAddress(inner, c);
    var x: Address :| Covers(inner, x) && Covers(c, x);
    ContainedAddresses(outer, inner, x);
    OverlapIsSharedAddress(outer, c);
  }

  // ----- Leading bits

  /** Bit `k` of a number, the least significant first. */
  function Bit(x: nat, k: nat): nat {
    if k == 0 then x % 2 else Bit(x / 2, k - 1)
  }

  lemma HalvedQuotient(x: nat, m: nat)
    requires m > 0
    ensures x / Pow2(m) == x / 2 / Pow2(m - 1)
  {
    QuotientOfQuotient(x, 2, Pow2(m - 1));
  }

  lemma BitNext(x: nat, k: nat)
    ensures Bit(x, k + 1) == Bit(x / 2, k)
  {
  }

  ghost predicate SameBits(x: nat, y: nat, from: nat, to: nat) {
    forall k :: from <= k < to ==> Bit(x, k) == Bit(y, k)
  }

  lemma BitsShift(x: nat, y: nat, n: nat, w: nat)
    ensures SameBits(x / 2, y / 2, n, w) <==> SameBits(x, y, n + 1, w + 1)
  {
    forall k | n <= k < w
      ensures Bit(x / 2, k) == Bit(x, k + 1) && Bit(y / 2, k) == Bit(y, k + 1)
    {
      BitNext(x, k);
      BitNext(y, k);
    }
    if SameBits(x / 2, y / 2, n, w) {
      forall k | n + 1 <= k < w + 1
        ensures Bit(x, k) == Bit(y, k)
      {
        BitNext(x, k - 1);
        BitNext(y, k - 1);
        assert n <= k - 1 < w;
      }
    }
    if SameBits(x, y, n + 1, w + 1) {
      assert forall k :: n <= k < w ==> Bit(x / 2, k) == Bit(x, k + 1);
    }
  }

  /** Dropping the low `m` bits of two `w`-bit numbers leaves the same exactly when all their
      higher bits agree. */
  lemma {:induction false} HighBitsDecide(x: nat, y: nat, m: nat, w: nat)
    requires m <= w && x < Pow2(w) && y < Pow2(w)
    ensures x / Pow2(m) == y / Pow2(m) <==> SameBits(x, y, m, w)
    decreases w
  {
    if w > 0 {
      var n := if m > 0 then m - 1 else 0;
      HighBitsDecide(x / 2, y / 2, n, w - 1);
      BitsShift(x, y, n, w - 1);
      if m > 0 {
        HalvedQuotient(x, m);
        HalvedQuotient(y, m);
      } else {
        AllBits(x, y, w);
      }
    }
  }

  lemma AllBits(x: nat, y: nat, w: nat)
    requires w > 0
    ensures SameBits(x, y, 0, w) <==> x % 2 == y % 2 && SameBits(x, y, 1, w)
  {
    assert Bit(x, 0) == x % 2 && Bit(y, 0) == y % 2;
  }

  /** A block covers the addresses that agree with it in the leading `prefixlen` bits, of 32 or
      of 128. */
  lemma PrefixDecides(b: Cidr, a: Address)
    requires a.version == b.version ==> a.value < Pow2(Width(b.version))
    ensures var bits := if b.version == V4 then 32 else 128;
            Covers(b, a) <==>
            a.version == b.version && SameBits(a.value, b.value, bits - b.prefixlen, bits)
  {
    if a.version == b.version {
      HighBitsDecide(a.value, b.value, Width(b.version) - b.prefixlen, Width(b.version));
    }
  }

  /** The containment test is inclusion of the covered addresses. */
  lemma ContainsIsInclusion(outer: Cidr, inner: Cidr)
    requires outer.prefixlen <= inner.prefixlen
    ensures Contains(outer, inner) <==> forall a: Address :: Covers(inner, a) ==> Covers(outer, a)
  {
    if Contains(outer, inner) {
      forall a: Address | Covers(inner, a)
        ensures Covers(outer, a)
      {
        ContainedAddresses(outer, inner, a);
      }
    } else {
      assert Covers(inner, Address(inner.version, inner.value));
    }
  }
}
