/**
 IP addresses and CIDR prefixes, as `net/netip` represents them: an address is a number
 below 2^width, and a prefix is an address with a bit count (section 3.1 of RFC 4632 for
 IPv4, section 2.3 of RFC 4291 for IPv6).
 */
module Cidr {

  datatype Family = V4 | V6 {
    function Width(): nat {
      if V4? then 32 else 128
    }
  }

  function Pow2(n: nat): (r: nat)
    ensures r >= 1
  {
    if n == 0 then 1 else 2 * Pow2(n - 1)
  }

  /** The largest multiple of `d` up to `x`. */
  function Floor(x: nat, d: nat): (f: nat)
    requires d > 0
    ensures f <= x
  {
    assert x < d ==> x % d == x;
    x - x % d
  }

  datatype RawAddress = Address(family: Family, value: nat)

  type IP = a: RawAddress | a.value < Pow2(a.family.Width()) witness Address(V4, 0)

  datatype RawPrefix = Prefix(family: Family, addr: nat, bits: nat) {
    /** How many addresses the prefix spans. */
    function Size(): (r: nat)
      requires bits <= family.Width()
      ensures r >= 1
    {
      Pow2(family.Width() - bits)
    }

    /** `netip.Prefix.Contains`: same family, and equal once the host bits are shifted out. */
    predicate Contains(a: IP)
      requires bits <= family.Width()
    {
      a.family == family && a.value / Size() == addr / Size()
    }

    /** `netip.Prefix.Masked` clears the host bits. */
    function Masked(): RawPrefix
      requires bits <= family.Width()
    {
      Prefix(family, Floor(addr, Size()), bits)
    }
  }

  type CIDR = p: RawPrefix |
    p.bits <= p.family.Width() && p.addr < Pow2(p.family.Width())
    witness Prefix(V4, 0, 0)

  function Base(p: CIDR): IP {
    Address(p.family, p.addr)
  }

  ghost predicate IsMasked(p: CIDR) {
    p.addr % p.Size() == 0
  }

  /** The cover test of the reduction loop. */
  predicate Covers(existing: CIDR, candidate: CIDR) {
    existing.bits <= candidate.bits && existing.Contains(Base(candidate))
  }

  ghost predicate Includes(p: CIDR, q: CIDR) {
    forall a: IP :: q.Contains(a) ==> p.Contains(a)
  }

  /** The address of `p` that has every host bit set. */
  ghost function Last(p: CIDR): (a: IP)
    requires IsMasked(p)
    ensures p.Contains(a)
  {
    SizeFits(p);
    BlockInterval(p, p.addr + p.Size() - 1);
    Address(p.family, p.addr + p.Size() - 1)
  }

  // --------------------------------------------------------------------------
  // Arithmetic of aligned blocks
  // --------------------------------------------------------------------------

  lemma {:induction false} Pow2Add(m: nat, n: nat)
    ensures Pow2(m + n) == Pow2(m) * Pow2(n)
  {
    if m > 0 {
      Pow2Add(m - 1, n);
      calc {
        Pow2(m + n);
        2 * (Pow2(m - 1) * Pow2(n));
        (2 * Pow2(m - 1)) * Pow2(n);
        Pow2(m) * Pow2(n);
      }
    }
  }

  lemma DivUnique(x: nat, d: nat, q: nat)
    requires d > 0
    ensures x / d == q <==> q * d <= x < q * d + d
  {
    assert x == x / d * d + x % d;
    if x / d < q {
      MulMono(x / d + 1, q, d);
    } else if x / d > q {
      MulMono(q + 1, x / d, d);
    }
  }

  lemma MulMono(a: nat, b: nat, d: nat)
    requires a <= b
    ensures a * d <= b * d
  {
  }

  lemma FloorDiv(x: nat, d: nat)
    requires d > 0
    ensures Floor(x, d) / d == x / d && Floor(x, d) % d == 0 && Floor(Floor(x, d), d) == Floor(x, d)
  {
    var f, q := Floor(x, d), x / d;
    assert f == q * d;
    DivUnique(f, d, q);
    assert f == f / d * d + f % d;
  }

  lemma MaskedMultiple(p: CIDR)
    requires IsMasked(p)
    ensures p.addr == p.addr / p.Size() * p.Size()
  {
    DivMod(p.addr, p.Size());
  }

  lemma DivMod(x: nat, d: nat)
    requires d > 0
    ensures x == x / d * d + x % d
  {
  }

  /** A masked prefix is the interval of `Size` addresses that starts at its address. */
  lemma BlockInterval(p: CIDR, value: nat)
    requires IsMasked(p)
    ensures value / p.Size() == p.addr / p.Size() <==> p.addr <= value < p.addr + p.Size()
  {
    DivUnique(value, p.Size(), p.addr / p.Size());
    MaskedMultiple(p);
  }

  lemma BlockFits(q: nat, d: nat, n: nat)
    requires q * d < n * d
    ensures q * d + d <= n * d
  {
    if q >= n {
      MulMono(n, q, d);
    } else {
      MulMono(q + 1, n, d);
    }
  }

  /** An aligned block that starts below 2^width ends below it too. */
  lemma SizeFits(p: CIDR)
    requires IsMasked(p)
    ensures p.addr + p.Size() <= Pow2(p.family.Width())
  {
    MaskedMultiple(p);
    Pow2Add(p.bits, p.family.Width() - p.bits);
    BlockFits(p.addr / p.Size(), p.Size(), Pow2(p.bits));
  }

  lemma Nested(x: nat, m: nat, k: nat)
    requires m > 0 && k > 0
    ensures m * k > 0 && x / (m * k) == x / m / k
  {
    var q := x / m / k;
    DivUnique(x / m, k, q);
    DivUnique(x, m, x / m);
    MulMono(q * k, x / m, m);
    MulMono(x / m + 1, q * k + k, m);
    Regroup(q, k, m);
    DivUnique(x, m * k, q);
  }

  lemma Regroup(q: nat, k: nat, m: nat)
    ensures q * k * m == q * (m * k) && (q * k + k) * m == q * (m * k) + m * k
  {
  }

  /** A broader block is a whole number of narrower ones. */
  lemma Coarsen(p: CIDR, q: CIDR, a: IP)
    requires p.family == q.family && p.bits <= q.bits && q.Contains(a)
    ensures a.value / p.Size() == q.addr / p.Size()
  {
    var k := Pow2(q.bits - p.bits);
    Pow2Add(q.family.Width() - q.bits, q.bits - p.bits);
    Nested(a.value, q.Size(), k);
    Nested(q.addr, q.Size(), k);
  }

  // --------------------------------------------------------------------------
  // What the rest of the project uses
  // --------------------------------------------------------------------------

  /** Masking keeps the prefix well formed, aligned, and the same set of addresses. */
  lemma MaskedIsSame(p: CIDR)
    ensures var m := p.Masked();
            && m.addr < Pow2(m.family.Width()) && IsMasked(m) && m.Masked() == m
            && forall a: IP :: m.Contains(a) <==> p.Contains(a)
  {
    FloorDiv(p.addr, p.Size());
  }

  /** Containment as an interval of numbers. */
  lemma ContainsIsInterval(p: CIDR, a: IP)
    requires IsMasked(p)
    ensures p.Contains(a) <==>
            a.family == p.family && p.addr <= a.value < p.addr + Pow2(p.family.Width() - p.bits)
  {
    BlockInterval(p, a.value);
  }

  /** 203.0.113.0/24 is 203.0.113.0 to 203.0.113.255. */
  lemma ContainsExample(a: IP)
    ensures var p: RawPrefix := Prefix(V4, 0xCB00_7100, 24);
            p.Contains(a) <==> a.family.V4? && 0xCB00_7100 <= a.value <= 0xCB00_71FF
  {
    assert Pow2(8) == 256 by {
      assert Pow2(4) == 16;
    }
  }

  /** How many addresses there are of each family, and in a 96-bit block. */
  lemma AddressCounts()
    ensures Pow2(V4.Width()) == 0x1_0000_0000 && Pow2(V6.Width()) == 0x1_0000_0000_0000_0000_0000_0000_0000_0000
    ensures Pow2(96) == 0x1_0000_0000_0000_0000_0000_0000
  {
    assert Pow2(32) == 0x1_0000_0000 by {
      Pow2Add(16, 16);
      assert Pow2(16) == 0x1_0000 by {
        Pow2Add(8, 8);
        assert Pow2(8) == 0x100 by { assert Pow2(4) == 0x10; }
      }
    }
    hide Pow2;
    Pow2Add(32, 96);
    Pow2Add(32, 64);
    Pow2Add(32, 32);
  }

  /** 2001:db8::/32 is 2001:db8:: to 2001:db8:ffff:ffff:ffff:ffff:ffff:ffff. */
  lemma ContainsExampleV6(a: IP)
    ensures var p: RawPrefix := Prefix(V6, 0x2001_0DB8_0000_0000_0000_0000_0000_0000, 32);
            p.Contains(a) <==>
              && a.family.V6?
              && 0x2001_0DB8_0000_0000_0000_0000_0000_0000 <= a.value <= 0x2001_0DB8_FFFF_FFFF_FFFF_FFFF_FFFF_FFFF
  {
    hide Pow2;
    AddressCounts();
  }

  function Mask(p: CIDR): (m: CIDR)
    ensures IsMasked(m) && m.bits == p.bits && m.family == p.family
    ensures forall a: IP :: m.Contains(a) <==> p.Contains(a)
  {
    MaskedIsSame(p);
    p.Masked()
  }

  lemma MaskFixed(p: CIDR)
    requires IsMasked(p)
    ensures Mask(p) == p
  {
    MaskedMultiple(p);
  }

  /** On masked prefixes the cover test of the loop decides inclusion of address sets. */
  lemma CoversIsInclusion(p: CIDR, q: CIDR)
    requires IsMasked(p) && IsMasked(q)
    ensures Covers(p, q) <==> Includes(p, q)
  {
    if Covers(p, q) {
      forall a: IP | q.Contains(a) ensures p.Contains(a) {
        Coarsen(p, q, a);
      }
    } else if Includes(p, q) {
      assert q.Contains(Base(q)) && q.Contains(Last(q));
      assert p.Contains(Base(q)) && p.Contains(Last(q));
      BlockInterval(p, q.addr);
      BlockInterval(p, q.addr + q.Size() - 1);
      // q is broader, so at least twice as long as p
      var k := p.bits - q.bits;
      Pow2Add(k, p.family.Width() - p.bits);
      MulMono(2, Pow2(k), p.Size());
      assert false;
    }
  }

  /** Prefixes form a laminar family: two that share an address are nested. */
  lemma Laminar(p: CIDR, q: CIDR, a: IP)
    requires IsMasked(p) && IsMasked(q) && p.Contains(a) && q.Contains(a)
    ensures Covers(p, q) || Covers(q, p)
  {
    if p.bits <= q.bits {
      Coarsen(p, q, a);
    } else {
      Coarsen(q, p, a);
    }
  }

  lemma CoversTransitive(p: CIDR, q: CIDR, r: CIDR)
    requires Covers(p, q) && Covers(q, r)
    ensures Covers(p, r)
  {
    Coarsen(p, q, Base(r));
  }

  lemma CoversAntisymmetric(p: CIDR, q: CIDR)
    requires IsMasked(p) && IsMasked(q) && Covers(p, q) && p.bits == q.bits
    ensures p == q
  {
    MaskedMultiple(p);
    MaskedMultiple(q);
  }
}
