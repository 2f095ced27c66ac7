/** Addresses, and prefixes as aligned blocks of a 32- or 128-bit space (section 3.1 of RFC 4632,
    section 2.3 of RFC 4291). */
module Prefixes {
  datatype Family = V4 | V6

  datatype Address = Address(family: Family, value: nat)

  datatype Prefix = Prefix(address: Address, bits: nat)

  function Pow2(n: nat): (r: nat)
    ensures r > 0
  {
    if n == 0 then 1 else 2 * Pow2(n - 1)
  }

  function Width(family: Family): nat {
    if family.V4? then 32 else 128
  }

  predicate ValidAddress(a: Address) {
    a.value < Pow2(Width(a.family))
  }

  predicate ValidPrefix(p: Prefix) {
    ValidAddress(p.address) && p.bits <= Width(p.address.family)
  }

  /** Number of addresses in the block. */
  function BlockSize(p: Prefix): nat
    requires ValidPrefix(p)
  {
    Pow2(Width(p.address.family) - p.bits)
  }

  /** The prefix holds the address: equal leading bits. */
  predicate Contains(p: Prefix, a: Address)
    requires ValidPrefix(p)
  {
    p.address.family == a.family && a.value / BlockSize(p) == p.address.value / BlockSize(p)
  }

  /** All bits after the prefix length are zero. */
  predicate Masked(p: Prefix)
    requires ValidPrefix(p)
  {
    p.address.value % BlockSize(p) == 0
  }

  /** Set inclusion and disjointness of the two address sets. */
  ghost predicate Within(p: Prefix, q: Prefix)
    requires ValidPrefix(p) && ValidPrefix(q)
  {
    forall a :: Contains(p, a) ==> Contains(q, a)
  }

  ghost predicate Disjoint(p: Prefix, q: Prefix)
    requires ValidPrefix(p) && ValidPrefix(q)
  {
    forall a :: !(Contains(p, a) && Contains(q, a))
  }

  /** The containment test of the route checks: a shorter or equal prefix that holds the other's address. */
  predicate Covers(q: Prefix, p: Prefix)
    requires ValidPrefix(p) && ValidPrefix(q)
  {
    q.bits <= p.bits && Contains(q, p.address)
  }

  // --- block arithmetic ---

  lemma {:induction false} Pow2Splits(a: nat, b: nat)
    ensures Pow2(a + b) == Pow2(a) * Pow2(b)
  {
    if a > 0 {
      Pow2Splits(a - 1, b);
      assert Pow2(a + b) == 2 * Pow2(a - 1 + b);
      assert Pow2(a) * Pow2(b) == 2 * (Pow2(a - 1) * Pow2(b));
    }
  }

  lemma MultipleOutside(d: int, m: int)
    requires m >= 0
    ensures d >= 1 ==> d * m >= m
    ensures d <= -1 ==> d * m <= -m
  {
  }

  lemma QuotientUnique(x: int, m: nat, q: int, r: nat)
    requires r < m && x == q * m + r
    ensures x / m == q && x % m == r
  {
    var d := x / m - q;
    assert x == x / m * m + x % m;
    assert d * m == x / m * m - q * m;
    MultipleOutside(d, m);
  }

  /** Dividing by m * k is dividing by m and then by k. */
  lemma DivideTwice(x: nat, m: nat, k: nat)
    requires m > 0 && k > 0
    ensures m * k > 0 && x / (m * k) == (x / m) / k
  {
    Composed(x, m, k, x / m, x % m, x / m / k, x / m % k);
  }

  lemma Composed(x: nat, m: nat, k: nat, y: nat, r: nat, q: nat, s: nat)
    requires r < m && s < k && x == y * m + r && y == q * k + s
    ensures m * k > 0 && x / (m * k) == q
  {
    DivideTwiceStep(m, k, q, s, r);
    QuotientUnique(x, m * k, q, s * m + r);
  }

  lemma DivideTwiceStep(m: nat, k: nat, q: nat, s: nat, r: nat)
    requires r < m && s < k
    ensures (q * k + s) * m + r == q * (m * k) + (s * m + r)
    ensures 0 <= s * m + r < m * k
  {
    assert (q * k + s) * m == q * k * m + s * m;
    assert q * k * m == q * (m * k);
    var t := k - 1 - s;
    assert m * k == s * m + t * m + m;
    assert t * m >= 0;
    assert s * m >= 0;
  }

  /** An address of p that agrees with q on p.address puts it in the larger block q. */
  lemma CoversInside(q: Prefix, p: Prefix, a: Address)
    requires ValidPrefix(p) && ValidPrefix(q)
    requires q.bits <= p.bits && p.address.family == q.address.family && Contains(p, a)
    ensures Contains(q, a) <==> Contains(q, p.address)
  {
    var w := Width(p.address.family);
    Pow2Splits(w - p.bits, p.bits - q.bits);
    var m, k := BlockSize(p), Pow2(p.bits - q.bits);
    assert BlockSize(q) == m * k;
    DivideTwice(a.value, m, k);
    DivideTwice(p.address.value, m, k);
  }

  /** Two blocks are nested or share no address. */
  lemma NestedOrDisjoint(p: Prefix, q: Prefix)
    requires ValidPrefix(p) && ValidPrefix(q) && q.bits <= p.bits
    ensures Within(p, q) || Disjoint(p, q)
    ensures Covers(q, p) ==> Within(p, q)
    ensures !Covers(q, p) ==> Disjoint(p, q)
  {
    forall a | Contains(p, a)
      ensures Contains(q, a) <==> Covers(q, p)
    {
      if p.address.family == q.address.family {
        CoversInside(q, p, a);
      }
    }
  }

  /** The bit test decides set inclusion. */
  lemma CoversIsInclusion(q: Prefix, p: Prefix)
    requires ValidPrefix(p) && ValidPrefix(q)
    ensures Covers(q, p) <==> Within(p, q)
  {
    assert Contains(p, p.address);
    if q.bits <= p.bits {
      NestedOrDisjoint(p, q);
    } else {
      LargerNotInside(q, p);
    }
  }

  lemma BlockRatio(q: Prefix, p: Prefix)
    requires ValidPrefix(p) && ValidPrefix(q) && p.bits < q.bits
    requires p.address.family == q.address.family
    ensures BlockSize(p) == BlockSize(q) * Pow2(q.bits - p.bits)
    ensures Pow2(q.bits - p.bits) >= 2
  {
    Pow2Splits(Width(p.address.family) - q.bits, q.bits - p.bits);
    assert Pow2(q.bits - p.bits) == 2 * Pow2(q.bits - p.bits - 1);
  }

  /** A block at least twice as large has two addresses that differ above q's size. */
  lemma LargerNotInside(q: Prefix, p: Prefix)
    requires ValidPrefix(p) && ValidPrefix(q) && p.bits < q.bits
    ensures !Within(p, q)
  {
    if p.address.family == q.address.family {
      BlockRatio(q, p);
      var f, g := TwoBlocks(p.address.value, BlockSize(q), Pow2(q.bits - p.bits), BlockSize(p));
      var first, second := Address(p.address.family, f), Address(p.address.family, g);
      assert Contains(p, first) && Contains(p, second);
      assert !Contains(q, first) || !Contains(q, second);
    } else {
      assert Contains(p, p.address) && !Contains(q, p.address);
    }
  }

  /** Two numbers in x's block of size b that lie in different blocks of size m. */
  lemma TwoBlocks(x: nat, m: nat, k: nat, b: nat) returns (first: nat, second: nat)
    requires m > 0 && k >= 2 && b == m * k
    ensures b > 0 && first / b == x / b && second / b == x / b
    ensures first / m != second / m
  {
    assert b == m * (k - 2) + 2 * m && m * (k - 2) >= 0;
    var n: nat := x / b;
    first, second := n * b, n * b + m;
    QuotientUnique(first, b, n, 0);
    QuotientUnique(second, b, n, m);
    assert n * b == (n * k) * m;
    assert (n * k + 1) * m == (n * k) * m + m;
    QuotientUnique(first, m, n * k, 0);
    QuotientUnique(second, m, n * k + 1, 0);
  }

  /** Testing each block's first address against the other block decides whether the blocks meet. */
  lemma OverlapTest(p: Prefix, q: Prefix)
    requires ValidPrefix(p) && ValidPrefix(q)
    ensures Contains(p, q.address) || Contains(q, p.address) <==> !Disjoint(p, q)
  {
    assert Contains(p, p.address) && Contains(q, q.address);
    if p.bits <= q.bits {
      NestedOrDisjoint(q, p);
    } else {
      NestedOrDisjoint(p, q);
    }
  }

  /** Masked blocks with the same addresses are the same prefix. */
  lemma SameBlock(p: Prefix, q: Prefix)
    requires ValidPrefix(p) && ValidPrefix(q) && Masked(p) && Masked(q)
    requires Within(p, q) && Within(q, p)
    ensures p == q
  {
    CoversIsInclusion(p, q);
    CoversIsInclusion(q, p);
    SameMultiple(p.address.value, q.address.value, BlockSize(p));
  }

  /** If p lies in d, d in outer, and outer is p or misses p, then d is p. */
  lemma Sandwich(p: Prefix, d: Prefix, outer: Prefix)
    requires ValidPrefix(p) && ValidPrefix(d) && ValidPrefix(outer)
    requires Masked(p) && Masked(d)
    requires Within(p, d) && Within(d, outer)
    requires outer == p || Disjoint(outer, p)
    ensures d == p
  {
    assert Contains(p, p.address);
    assert Contains(outer, p.address);
    SameBlock(p, d);
  }

  lemma SameMultiple(x: nat, y: nat, m: nat)
    requires m > 0 && x % m == 0 && y % m == 0 && x / m == y / m
    ensures x == y
  {
  }

  // --- the address classes that matter to a plan ---

  /** IPv4-mapped IPv6 addresses, ::ffff:0:0/96. */
  predicate Is4In6(a: Address) {
    a.family.V6? && a.value / 0x1_0000_0000 == 0xffff
  }

  /** Neither unspecified, broadcast, loopback, multicast nor link-local. */
  predicate IsGlobalUnicast(a: Address) {
    match a.family
    case V4 =>
      && a.value != 0 && a.value != 0xffff_ffff
      && a.value / 0x100_0000 != 127
      && a.value / 0x1000_0000 != 14
      && a.value / 0x1_0000 != 0xa9fe
    case V6 =>
      && a.value > 1
      && a.value / 0x1_00_0000_0000_0000_0000_0000_0000_0000 != 0xff
      && a.value / 0x40_0000_0000_0000_0000_0000_0000_0000 != 0x3fa
  }
}
