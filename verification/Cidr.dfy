/** CIDR blocks as integers: 32-bit IPv4 and 128-bit IPv6 addresses, masks and
    the overlap test of Python's `ipaddress` module. */
module Cidrs {
  datatype Family = V4 | V6

  function Width(family: Family): nat {
    if family.V4? then 32 else 128
  }

  function Pow2(n: nat): (p: nat)
    ensures p > 0
  {
    if n == 0 then 1 else 2 * Pow2(n - 1)
  }

  /** `base/len` as written; host bits may still be set. */
  datatype Cidr = Cidr(family: Family, base: nat, len: nat) {
    /** Number of addresses, 2 to the number of host bits. */
    function Size(): (s: nat)
      ensures s > 0
    {
      if len <= Width(family) then Pow2(Width(family) - len) else 1
    }

    /** What `ip_network(text, strict=True)` demands: the prefix length fits, the
        address fits, and no host bit is set. */
    predicate Strict() {
      && len <= Width(family)
      && base < Pow2(Width(family))
      && base % Size() == 0
    }

    /** The network mask, applied to an address. */
    function Masked(addr: nat): int {
      addr - addr % Size()
    }

    /** `address in network` */
    predicate Has(addr: nat) {
      Masked(addr) == base
    }

    function Broadcast(): nat {
      base + Size() - 1
    }
  }

  /** `network.overlaps(other)`, test by test. */
  predicate Overlaps(a: Cidr, b: Cidr) {
    && a.family == b.family
    && (a.Has(b.base) || a.Has(b.Broadcast()) || b.Has(a.base) || b.Has(a.Broadcast()))
  }

  ghost predicate Contains(a: Cidr, b: Cidr) {
    a.family == b.family && forall addr: nat :: b.Has(addr) ==> a.Has(addr)
  }

  ghost predicate ShareAddress(a: Cidr, b: Cidr) {
    a.family == b.family && exists addr: nat :: a.Has(addr) && b.Has(addr)
  }

  lemma {:induction false} TimesStep(s: nat, low: nat, high: nat)
    requires low < high
    ensures s * low + s <= s * high
    decreases high
  {
    assert s * high == s * (high - 1) + s;
    if low < high - 1 {
      TimesStep(s, low, high - 1);
    }
  }

  lemma DivisionSplits(base: nat, size: nat, addr: nat)
    requires size > 0 && base % size == 0
    ensures addr - addr % size == base <==> base <= addr < base + size
  {
    var q, k := addr / size, base / size;
    assert addr == size * q + addr % size && base == size * k;
    if q > k {
      TimesStep(size, k, q);
    } else if q < k {
      TimesStep(size, q, k);
    }
  }

  /** Membership by mask is membership in the interval from the network address
      to the broadcast address. */
  lemma HasIsInterval(c: Cidr, addr: nat)
    requires c.Strict()
    ensures c.Has(addr) <==> c.base <= addr <= c.Broadcast()
  {
    DivisionSplits(c.base, c.Size(), addr);
  }

  lemma {:induction false} Pow2Splits(m: nat, n: nat)
    requires m <= n
    ensures Pow2(n) == Pow2(m) * Pow2(n - m)
    decreases n - m
  {
    if m < n {
      Pow2Splits(m, n - 1);
      assert Pow2(n) == 2 * (Pow2(m) * Pow2(n - 1 - m));
      assert Pow2(n - m) == 2 * Pow2(n - m - 1);
    }
  }

  lemma AlignedInside(s: nat, k: nat, p: nat, q: nat, x: nat)
    requires s > 0
    requires s * p <= x < s * p + s * k && s * q <= x < s * q + s
    ensures s * p <= s * q && s * q + s <= s * p + s * k
  {
    if p > q {
      TimesStep(s, q, p);
    } else if p < q {
      TimesStep(s, p, q);
    }
    assert s * p + s * k == s * (p + k);
    if q > p + k {
      TimesStep(s, p + k, q);
    } else if q < p + k {
      TimesStep(s, q, p + k);
    }
  }

  lemma BaseSplits(base: nat, s: nat, k: nat) returns (p: nat)
    requires s > 0 && k > 0 && s * k > 0 && base % (s * k) == 0
    ensures base == s * p
  {
    p := k * (base / (s * k));
    assert base == s * k * (base / (s * k));
    Associates(s, k, base / (s * k));
  }

  lemma Associates(x: nat, y: nat, z: nat)
    ensures x * y * z == x * (y * z)
  {
  }

  /** A block with the shorter prefix is a whole number of blocks of the longer
      one, so a shared address puts the smaller block inside the larger. */
  lemma ShorterPrefixContains(a: Cidr, b: Cidr, addr: nat)
    requires a.Strict() && b.Strict() && a.family == b.family && a.len <= b.len
    requires a.Has(addr) && b.Has(addr)
    ensures Contains(a, b)
  {
    var s, k := b.Size(), Pow2(b.len - a.len);
    assert a.Size() == s * k by {
      Pow2Splits(Width(a.family) - b.len, Width(a.family) - a.len);
    }
    HasIsInterval(a, addr);
    HasIsInterval(b, addr);
    var p := BaseSplits(a.base, s, k);
    var q := BaseSplits(b.base, s, 1);
    AlignedInside(s, k, p, q, addr);
    forall y: nat | b.Has(y) ensures a.Has(y) {
      HasIsInterval(a, y);
      HasIsInterval(b, y);
    }
  }

  /** Addresses as numbers: a /24 of IPv4 is the addresses with the same first three
      octets, a /64 of IPv6 those with the same upper half. */
  lemma PrefixIsNetwork(network: nat, other: nat, host: nat)
    ensures host < 256 ==> (Cidr(V4, network * 256, 24).Has(other * 256 + host) <==> network == other)
    ensures host < 0x1_0000_0000_0000_0000 ==>
              (Cidr(V6, network * 0x1_0000_0000_0000_0000, 64).Has(other * 0x1_0000_0000_0000_0000 + host)
               <==> network == other)
  {
    Pow2Of64();
    SameNetwork(256, network, other, host);
    SameNetwork(0x1_0000_0000_0000_0000, network, other, host);
  }

  /** What a strict block is, in numbers: the prefix length and the address fit, and the
      address is in the block, that is, no host bit is set. */
  lemma StrictMeans(c: Cidr)
    ensures c.Strict() <==>
            && (if c.family.V4? then c.len <= 32 && c.base < 0x1_0000_0000
                else c.len <= 128 && c.base < 0x1_0000_0000_0000_0000_0000_0000_0000_0000)
            && c.Has(c.base)
  {
    Pow2Of64();
    Pow2Twice(64, 0x1_0000_0000_0000_0000);
  }

  lemma Pow2Of64()
    ensures Pow2(8) == 256 && Pow2(32) == 0x1_0000_0000 && Pow2(64) == 0x1_0000_0000_0000_0000
  {
    hide Pow2;
    Pow2Twice(1, 2);
    Pow2Twice(2, 4);
    Pow2Twice(4, 16);
    Pow2Twice(8, 256);
    Pow2Twice(16, 0x1_0000);
    Pow2Twice(32, 0x1_0000_0000);
  }

  lemma Pow2Twice(n: nat, p: nat)
    requires (n == 1 && p == 2) || Pow2(n) == p
    ensures Pow2(2 * n) == p * p
  {
    Pow2Splits(n, 2 * n);
  }

  lemma SameNetwork(size: nat, network: nat, other: nat, host: nat)
    requires size > 0
    ensures host < size ==>
              (other * size + host - (other * size + host) % size == network * size <==> network == other)
  {
    if host < size {
      DivisionSplits(network * size, size, other * size + host) by {
        MultipleOf(network, size);
      }
      if network < other {
        TimesStep(size, network, other);
      } else if other < network {
        TimesStep(size, other, network);
      }
    }
  }

  lemma MultipleOf(a: nat, size: nat)
    requires size > 0
    ensures a * size >= 0 && (a * size) % size == 0
  {
    var x := size * a;
    var q := x / size;
    assert x == size * q + x % size;
    if q < a {
      TimesStep(size, q, a);
    } else if a < q {
      TimesStep(size, a, q);
    }
  }

  /** Two canonical CIDR blocks overlap exactly when they share an address, and
      then one contains the other. */
  lemma OverlapMeansNesting(a: Cidr, b: Cidr)
    requires a.Strict() && b.Strict()
    ensures Overlaps(a, b) <==> ShareAddress(a, b)
    ensures Overlaps(a, b) <==> Contains(a, b) || Contains(b, a)
  {
    forall c: Cidr | c == a || c == b ensures c.Has(c.base) && c.Has(c.Broadcast()) {
      HasIsInterval(c, c.base);
      HasIsInterval(c, c.Broadcast());
    }
    if ShareAddress(a, b) {
      var addr: nat :| a.Has(addr) && b.Has(addr);
      if a.len <= b.len {
        ShorterPrefixContains(a, b, addr);
      } else {
        ShorterPrefixContains(b, a, addr);
      }
    }
  }
}
