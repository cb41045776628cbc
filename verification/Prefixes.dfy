/** IPv4 prefixes and the mask arithmetic of internal/config/config.go:302-314. */
module Prefixes {
  import opened Prelude
  import opened Ipv4

  const WORD32 := 0x1_0000_0000

  function Pow2(n: nat): (p: nat)
    ensures p > 0
  {
    if n == 0 then 1 else 2 * Pow2(n - 1)
  }

  lemma {:induction false} LargerMultiple(m: nat, q: int, k: int)
    requires q < k
    ensures m * q + m <= m * k
    decreases k - q
  {
    if q + 1 < k {
      LargerMultiple(m, q, k - 1);
    }
    assert m * k == m * (k - 1) + m;
  }

  /** Different multiples of m are at least m apart. */
  lemma MultiplesAreApart(m: nat, q: int, k: int)
    ensures q < k ==> m * q + m <= m * k
    ensures k < q ==> m * k + m <= m * q
  {
    if q < k {
      LargerMultiple(m, q, k);
    } else if k < q {
      LargerMultiple(m, k, q);
    }
  }

  /** Quotient and remainder are determined by the division equation. */
  lemma DivisionIsUnique(a: int, m: nat, q: int, r: int)
    requires m > 0 && a == m * q + r && 0 <= r < m
    ensures a / m == q && a % m == r
  {
    MultiplesAreApart(m, a / m, q);
  }

  lemma RemainderIsBelow(a: nat, m: nat)
    requires m > 0
    ensures 0 <= a % m <= a
  {
    MultiplesAreApart(m, a / m, 0);
  }

  /** An address and a prefix length; not necessarily canonical. */
  datatype Prefix = Prefix(addr: Addr, bits: nat)
  {
    predicate Valid() { bits <= 32 }

    /** How many addresses it covers. */
    function Size(): (n: nat)
      requires Valid()
      ensures n > 0
    {
      Pow2(32 - bits)
    }

    /** The address with its host bits cleared. */
    function Network(): (a: Addr)
      requires Valid()
      ensures a <= addr
    {
      RemainderIsBelow(addr, Size());
      addr - addr % Size()
    }

    /** Both addresses agree on the first bits. */
    predicate Contains(ip: Addr)
      requires Valid()
    {
      Prefix(ip, bits).Network() == Network()
    }
  }

  /** Bitwise or of two unsigned words. */
  function Or(a: nat, b: nat): nat {
    if a == 0 then b
    else if b == 0 then a
    else 2 * Or(a / 2, b / 2) + (if a % 2 == 1 || b % 2 == 1 then 1 else 0)
  }

  /** uint32(1<<hostBits) - 1, with both operations wrapping at 32 bits. */
  function HostMask(bits: nat): Addr
    requires bits <= 32
  {
    (Pow2(32 - bits) % WORD32 - 1) % WORD32
  }

  /** The first or last address of the prefix, computed byte by byte as the source does. */
  predicate IsNetworkOrBroadcast(prefix: Prefix, ip: Addr)
    requires prefix.Valid()
  {
    var first := As4(prefix.Network());
    var v := AddrFrom4(first[0], first[1], first[2], first[3]);
    BroadcastFits(prefix);
    var last := As4(Or(v, HostMask(prefix.bits)));
    ip == AddrFrom4(first[0], first[1], first[2], first[3]) || ip == AddrFrom4(last[0], last[1], last[2], last[3])
  }

  lemma {:induction false} Pow2Adds(a: nat, b: nat)
    ensures Pow2(a + b) == Pow2(a) * Pow2(b)
  {
    if a > 0 {
      Pow2Adds(a - 1, b);
    }
  }

  lemma Pow2Of32()
    ensures Pow2(32) == WORD32 && Pow2(16) == 0x1_0000
  {
    assert Pow2(4) == 16;
    Pow2Adds(4, 4);
    Pow2Adds(8, 8);
    Pow2Adds(16, 16);
  }

  lemma {:induction false} Pow2Monotone(a: nat, b: nat)
    requires a <= b
    ensures Pow2(a) <= Pow2(b)
  {
    if a < b {
      Pow2Monotone(a, b - 1);
    }
  }

  /** OR-ing a low mask onto a word with those bits clear adds it. */
  lemma {:induction false} OrFillsLowBits(v: nat, h: nat)
    requires v % Pow2(h) == 0
    ensures Or(v, Pow2(h) - 1) == v + Pow2(h) - 1
  {
    if v > 0 && h > 0 {
      var m := Pow2(h - 1);
      HalfOfMultiple(v, m);
      OrFillsLowBits(v / 2, h - 1);
      assert (Pow2(h) - 1) / 2 == m - 1;
    }
  }

  lemma MaskFillsLowBits(v: nat, h: nat, mask: nat)
    requires v % Pow2(h) == 0 && mask == Pow2(h) - 1
    ensures Or(v, mask) == v + mask
  {
    OrFillsLowBits(v, h);
  }

  lemma HalfOfMultiple(v: nat, m: nat)
    requires m > 0 && v % (2 * m) == 0
    ensures v % 2 == 0 && v / 2 % m == 0
  {
    var q := v / (2 * m);
    assert v == 2 * m * q == 2 * (m * q);
    DivisionIsUnique(v / 2, m, q, 0);
  }

  /** A multiple of m below another multiple of m leaves room for m more. */
  lemma MultiplesAreSpaced(a: nat, m: nat, k: nat)
    requires m > 0 && a % m == 0 && a < m * k
    ensures a + m <= m * k
  {
    MultiplesAreApart(m, a / m, k);
  }

  lemma NetworkIsMultiple(p: Prefix)
    requires p.Valid()
    ensures p.Network() % p.Size() == 0
  {
    DivisionIsUnique(p.Network(), p.Size(), p.addr / p.Size(), 0);
  }

  /** One less than a value of at most 2^32, with both operations wrapping at 32 bits. */
  lemma MinusOneWraps(m: int)
    requires 0 < m <= WORD32
    ensures (m % WORD32 - 1) % WORD32 == m - 1
  {
    if m < WORD32 {
      assert m % WORD32 == m;
    }
  }

  lemma SizeIsAtMost(p: Prefix)
    requires p.Valid()
    ensures 0 < p.Size() <= WORD32
  {
    Pow2Of32();
    Pow2Monotone(32 - p.bits, 32);
  }

  lemma HostMaskIsSize(p: Prefix)
    requires p.Valid()
    ensures HostMask(p.bits) == p.Size() - 1
  {
    SizeIsAtMost(p);
    MinusOneWraps(p.Size());
  }

  lemma BroadcastIsAnAddress(p: Prefix)
    requires p.Valid()
    ensures p.Network() + p.Size() <= WORD32
  {
    Pow2Of32();
    Pow2Adds(32 - p.bits, p.bits);
    NetworkIsMultiple(p);
    MultiplesAreSpaced(p.Network(), p.Size(), Pow2(p.bits));
  }

  /** The last address of a prefix is an address, and the mask arithmetic finds it: with the
      shift and the subtraction both wrapping at 32 bits, OR-ing the mask onto the network
      address gives network + 2^h - 1 for every prefix length from 0 to 32. */
  lemma BroadcastFits(p: Prefix)
    requires p.Valid()
    ensures HostMask(p.bits) == p.Size() - 1
    ensures Or(p.Network(), HostMask(p.bits)) == p.Network() + p.Size() - 1 < WORD32
  {
    HostMaskIsSize(p);
    BroadcastIsAnAddress(p);
    NetworkIsMultiple(p);
    MaskFillsLowBits(p.Network(), 32 - p.bits, HostMask(p.bits));
  }

  /** Clearing host bits finds the multiple below. */
  lemma NetworkIsUnique(a: nat, m: nat, n: nat)
    requires m > 0 && n % m == 0
    ensures a - a % m == n <==> n <= a < n + m
  {
    if n <= a < n + m {
      assert n == m * (n / m);
      DivisionIsUnique(a, m, n / m, a - n);
    }
  }

  /** A prefix contains exactly the addresses from its network to its broadcast address. */
  lemma ContainsIsAnInterval(p: Prefix, ip: Addr)
    requires p.Valid()
    ensures p.Contains(ip) <==> p.Network() <= ip <= p.Network() + p.Size() - 1
  {
    NetworkIsMultiple(p);
    NetworkIsUnique(ip, p.Size(), p.Network());
  }

  /** The reserved-address test is true exactly at the two ends of that interval. */
  lemma ReservedAreTheTwoEnds(p: Prefix, ip: Addr)
    requires p.Valid()
    ensures IsNetworkOrBroadcast(p, ip) <==> ip == p.Network() || ip == p.Network() + p.Size() - 1
  {
    BroadcastFits(p);
  }
}
