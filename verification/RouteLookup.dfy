/** Where packets go: longest-prefix lookup (section 5.2.4.3 of RFC 1812) before a setup, after
    it and after its cleanup. */
module RouteLookup {
  import opened Prelude
  import opened Prefixes
  import opened Routes

  /** The prefix of this length around an address, in canonical form. */
  function Around(ip: Addr, bits: nat): Prefix
    requires bits <= 32
  {
    Prefix(Prefix(ip, bits).Network(), bits)
  }

  /** The entry of the longest prefix of at most this many bits that contains the address. */
  function LookupFrom(t: Table, ip: Addr, bits: nat): Option<Entry>
    requires bits <= 32
  {
    if Route4(Around(ip, bits)) in t then Some(t[Route4(Around(ip, bits))])
    else if bits == 0 then None
    else LookupFrom(t, ip, bits - 1)
  }

  function Lookup(t: Table, ip: Addr): Option<Entry> { LookupFrom(t, ip, 32) }

  /** Every IPv4 route of the table has a canonical prefix. */
  ghost predicate Canonical(t: Table) {
    forall p: Prefix :: Route4(p) in t ==> p.Valid() && p.Network() == p.addr
  }

  /** e is the route of a prefix that contains the address, and no longer prefix does. */
  ghost predicate LongestMatch(t: Table, ip: Addr, e: Entry)
    requires Canonical(t)
  {
    exists p: Prefix :: Route4(p) in t && t[Route4(p)] == e && p.Contains(ip)
      && forall q: Prefix :: Route4(q) in t && q.Contains(ip) ==> q.bits <= p.bits
  }

  lemma {:induction false} LookupFindsTheLongest(t: Table, ip: Addr, bits: nat)
    requires Canonical(t) && bits <= 32
    requires forall q: Prefix :: Route4(q) in t && q.Contains(ip) ==> q.bits <= bits
    ensures LookupFrom(t, ip, bits).Some? ==> LongestMatch(t, ip, LookupFrom(t, ip, bits).value)
    ensures LookupFrom(t, ip, bits).None? ==> forall q: Prefix :: Route4(q) in t ==> !q.Contains(ip)
  {
    var p := Around(ip, bits);
    if Route4(p) in t {
      assert p.Contains(ip);
      assert LongestMatch(t, ip, t[Route4(p)]);
    } else {
      forall q: Prefix | Route4(q) in t && q.Contains(ip)
        ensures q.bits < bits
      {
        assert q == Around(ip, q.bits);
      }
      if bits > 0 {
        LookupFindsTheLongest(t, ip, bits - 1);
      }
    }
  }

  /** The search by decreasing length is longest-match: it finds an entry exactly when that
      entry is the longest match, and nothing exactly when no route contains the address. */
  lemma LookupIsLongestMatch(t: Table, ip: Addr, e: Entry)
    requires Canonical(t)
    ensures Lookup(t, ip) == Some(e) <==> LongestMatch(t, ip, e)
  {
    LookupFindsTheLongest(t, ip, 32);
    if LongestMatch(t, ip, e) {
      var p: Prefix :| Route4(p) in t && t[Route4(p)] == e && p.Contains(ip)
        && forall q: Prefix :: Route4(q) in t && q.Contains(ip) ==> q.bits <= p.bits;
      var f := Lookup(t, ip).value;
      var r: Prefix :| Route4(r) in t && t[Route4(r)] == f && r.Contains(ip)
        && forall q: Prefix :: Route4(q) in t && q.Contains(ip) ==> q.bits <= r.bits;
      assert p == Around(ip, p.bits) && r == Around(ip, r.bits);
    }
  }

  // ----- Full tunnel -----

  /** A prefix of at least two and at most this many bits contains the address. */
  function Specific(t: Table, ip: Addr, bits: nat): bool
    requires bits <= 32
  {
    bits >= 2 && (Route4(Around(ip, bits)) in t || Specific(t, ip, bits - 1))
  }

  /** The routes a setup installs: the two hosts and the two halves. */
  ghost function AfterSetup(t: Table, o: Options, orig: Default): Table {
    Apply(t, Steps(o, orig))
  }

  lemma SetupTable(t: Table, o: Options, orig: Default, p: Prefix)
    ensures var after := AfterSetup(t, o, orig);
            if p == UPPER_HALF || p == LOWER_HALF then
              Route4(p) in after && after[Route4(p)] == Entry(Some(o.gateway), o.interface)
            else if p == Prefix(o.gateway, 32) then Route4(p) in after && after[Route4(p)] == Entry(None, o.interface)
            else if p == Prefix(o.serverIP, 32) then Route4(p) in after && after[Route4(p)] == Entry(orig.gateway, orig.dev)
            else (Route4(p) in after <==> Route4(p) in t) && (Route4(p) in t ==> after[Route4(p)] == t[Route4(p)])
  {
    StepsExpanded(t, o, orig);
  }

  lemma HostAndHalf(ip: Addr)
    ensures Around(ip, 32) == Prefix(ip, 32)
    ensures Around(ip, 1) == LOWER_HALF || Around(ip, 1) == UPPER_HALF
  {
    assert Pow2(0) == 1;
    Pow2Of32();
    assert Pow2(32) == 2 * Pow2(31);
    NetworkIsUnique(ip, Pow2(31), 0);
    NetworkIsUnique(ip, Pow2(31), Pow2(31));
  }

  /** Below the host routes a setup changes nothing but the two halves. */
  lemma {:induction false} MiddleLookup(t: Table, o: Options, orig: Default, ip: Addr, bits: nat)
    requires 1 <= bits < 32
    ensures LookupFrom(AfterSetup(t, o, orig), ip, bits) ==
            if Specific(t, ip, bits) then LookupFrom(t, ip, bits) else Some(Entry(Some(o.gateway), o.interface))
  {
    SetupTable(t, o, orig, Around(ip, bits));
    if bits == 1 {
      HostAndHalf(ip);
    } else if Route4(Around(ip, bits)) !in t {
      MiddleLookup(t, o, orig, ip, bits - 1);
    }
  }

  /** After a setup each of the 2^32 destinations goes: the gateway through the tunnel, the
      server to the original device, a destination with a specific route where it went before,
      and every other one through the tunnel. */
  lemma EveryDestinationAfterSetup(t: Table, o: Options, orig: Default, ip: Addr)
    ensures Lookup(AfterSetup(t, o, orig), ip) ==
            if ip == o.gateway then Some(Entry(None, o.interface))
            else if ip == o.serverIP then Some(Entry(orig.gateway, orig.dev))
            else if Specific(t, ip, 32) then Lookup(t, ip)
            else Some(Entry(Some(o.gateway), o.interface))
  {
    HostAndHalf(ip);
    SetupTable(t, o, orig, Prefix(ip, 32));
    MiddleLookup(t, o, orig, ip, 31);
  }

  lemma InstalledPrefixesAreCanonical(a: Addr)
    ensures Prefix(a, 32).Network() == a
    ensures LOWER_HALF.Network() == LOWER_HALF.addr && UPPER_HALF.Network() == UPPER_HALF.addr
  {
    assert Pow2(0) == 1;
    Pow2Of32();
    assert Pow2(32) == 2 * Pow2(31);
  }

  /** A setup installs canonical prefixes only. */
  lemma SetupKeepsTablesCanonical(t: Table, o: Options, orig: Default)
    requires Canonical(t)
    ensures Canonical(AfterSetup(t, o, orig))
  {
    InstalledPrefixesAreCanonical(o.gateway);
    InstalledPrefixesAreCanonical(o.serverIP);
    forall p: Prefix | Route4(p) in AfterSetup(t, o, orig)
      ensures p.Valid() && p.Network() == p.addr
    {
      SetupTable(t, o, orig, p);
    }
  }

  /** So on canonical tables these are the longest matches: the one matching entry no other
      matching entry is longer than. */
  lemma EveryDestinationIsTheLongestMatch(t: Table, o: Options, orig: Default, ip: Addr, e: Entry)
    requires Canonical(t)
    ensures Canonical(AfterSetup(t, o, orig))
    ensures LongestMatch(AfterSetup(t, o, orig), ip, e) <==>
            if ip == o.gateway then e == Entry(None, o.interface)
            else if ip == o.serverIP then e == Entry(orig.gateway, orig.dev)
            else if Specific(t, ip, 32) then LongestMatch(t, ip, e)
            else e == Entry(Some(o.gateway), o.interface)
  {
    SetupKeepsTablesCanonical(t, o, orig);
    EveryDestinationAfterSetup(t, o, orig, ip);
    LookupIsLongestMatch(AfterSetup(t, o, orig), ip, e);
    LookupIsLongestMatch(t, ip, e);
  }

  lemma {:induction false} OnlyADefault(t: Table, ip: Addr, bits: nat)
    requires bits <= 32
    requires forall q: Prefix :: Route4(q) in t && q.Valid() && q.Contains(ip) ==> q.bits == 0
    ensures !Specific(t, ip, bits)
  {
    if bits >= 2 {
      assert Around(ip, bits).Contains(ip) by { AroundContains(ip, bits); }
      OnlyADefault(t, ip, bits - 1);
    }
  }

  lemma AroundContains(ip: Addr, bits: nat)
    requires bits <= 32
    ensures Around(ip, bits).Contains(ip)
  {
    NetworkIsMultiple(Prefix(ip, bits));
    NetworkIsUnique(Around(ip, bits).addr, Around(ip, bits).Size(), Around(ip, bits).addr);
  }

  /** Full tunnel: a destination that matched at most a default route goes through the tunnel,
      unless it is the server, which keeps the original device exactly when it is not also the
      tunnel gateway. */
  lemma DefaultTrafficIsCaptured(t: Table, o: Options, orig: Default, ip: Addr)
    requires Usable(orig, o.interface)
    requires forall q: Prefix :: Route4(q) in t && q.Valid() && q.Contains(ip) ==> q.bits == 0
    ensures var after := Lookup(AfterSetup(t, o, orig), ip);
            && after.Some?
            && (ip != o.serverIP ==> after.value.dev == o.interface)
            && (ip == o.serverIP ==> (after.value == Entry(orig.gateway, orig.dev) <==> o.serverIP != o.gateway))
  {
    OnlyADefault(t, ip, 32);
    EveryDestinationAfterSetup(t, o, orig, ip);
  }

  lemma StepsAreUndoable(o: Options, orig: Default)
    ensures AllUndoable(Steps(o, orig))
  {}

  /** After the cleanup of a setup whose keys were all absent before it, every destination goes
      where it went before; the same after a setup that failed at any point. */
  lemma CleanupRestoresEveryLookup(t: Table, o: Options, orig: Default, done: nat, ip: Addr)
    requires done <= |Steps(o, orig)| && t.Keys !! Keys(Steps(o, orig)[..done])
    ensures var undone := UndoAll(Apply(t, Steps(o, orig)[..done]), Steps(o, orig)[..done]);
            undone == t && Lookup(undone, ip) == Lookup(t, ip)
  {
    StepsAreUndoable(o, orig);
    RollbackRestoresExactlyAbsentKeys(t, Steps(o, orig), done);
  }
}
