/** The topology part of the server configuration check (internal/config/config.go:190-242).
    Text is parsed already: an address or prefix that does not parse is a value of its own, and
    a token hash that does not parse is None. */
module Topology {
  import opened Prelude
  import opened Prefixes

  /** The result of netip.ParseAddr. */
  datatype ParsedAddr = NoAddr | V6(bits: nat) | V4(addr: Addr)

  /** The result of netip.ParsePrefix. */
  datatype ParsedPrefix = NoPrefix | V6Prefix(address: nat, length: nat) | V4Prefix(prefix: Prefix)
  {
    /** A parsed IPv4 prefix has at most 32 bits. */
    predicate Parsed() { V4Prefix? ==> prefix.Valid() }

    predicate Covers(a: Addr)
      requires Parsed()
    {
      V4Prefix? && prefix.Contains(a)
    }
  }

  datatype Client = Client(name: string, address: ParsedAddr, digest: Option<Digest>)

  datatype Config = Config(
    network: ParsedPrefix, gateway: ParsedAddr, mtu: int, maxClients: int, clients: seq<Client>,
    settled: bool)    // the listener, path, interface and timeout checks find nothing

  datatype Problem =
    | BadNetwork
    | BadGateway
    | BadMtu
    | BadMaxClients
    | BadSettings
    | BadName(i: nat)
    | BadAddress(i: nat)
    | BadToken(i: nat)
    | NoClients

  /** The all-zero digest ParseHash returns beside an error. */
  const NO_DIGEST: Digest :=
    [0, 0, 0, 0, 0, 0, 0, 0, 0, 0, 0, 0, 0, 0, 0, 0, 0, 0, 0, 0, 0, 0, 0, 0, 0, 0, 0, 0, 0, 0, 0, 0]

  function DigestOf(c: Client): Digest { if c.digest.Some? then c.digest.value else NO_DIGEST }

  /** Section 3 of RFC 1918: 10/8, 172.16/12 and 192.168/16. */
  predicate IsPrivate(a: Addr) {
    0x0A00_0000 <= a < 0x0B00_0000 || 0xAC10_0000 <= a < 0xAC20_0000 || 0xC0A8_0000 <= a < 0xC0A9_0000
  }

  /** A canonical private /16 to /30 prefix. */
  predicate NetworkOk(network: ParsedPrefix)
    requires network.Parsed()
  {
    network.V4Prefix? && IsPrivate(network.prefix.addr) && 16 <= network.prefix.bits <= 30
    && network.prefix.Network() == network.prefix.addr
  }

  predicate GatewayOk(c: Config)
    requires c.network.Parsed()
  {
    c.gateway.V4? && (c.network != NoPrefix ==> c.network.Covers(c.gateway.addr))
  }

  /** The guards of config.go:228, before duplicates: the address test is only reached for an
      IPv4 address that the prefix contains, so never with another prefix. */
  predicate AddressOk(c: Config, a: ParsedAddr)
    requires c.network.Parsed()
  {
    && a.V4?
    && (c.network != NoPrefix ==> c.network.Covers(a.addr) && !IsNetworkOrBroadcast(c.network.prefix, a.addr))
    && a != c.gateway
  }

  /** All of these addresses are private: within 10.0.0.0 to 10.255.255.255, 172.16.0.0 to
      172.31.255.255 or 192.168.0.0 to 192.168.255.255. */
  predicate PrivateInterval(first: int, last: int) {
    || 0x0A00_0000 <= first <= last <= 0x0AFF_FFFF
    || 0xAC10_0000 <= first <= last <= 0xAC1F_FFFF
    || 0xC0A8_0000 <= first <= last <= 0xC0A8_FFFF
  }

  /** Network and gateway are accepted exactly when the network is a block of 2^h addresses, h from
      2 to 16, that starts at a multiple of its size and is private from end to end, and the
      gateway is one of its addresses. */
  lemma NetworkAndGatewayAreAcceptedExactlyWhen(c: Config)
    requires c.network.Parsed()
    ensures NetworkOk(c.network) && GatewayOk(c) <==>
            && c.network.V4Prefix? && c.gateway.V4?
            && var p := c.network.prefix; var size := Pow2(32 - p.bits);
            && 16 <= p.bits <= 30 && p.addr % size == 0
            && PrivateInterval(p.addr, p.addr + size - 1)
            && p.addr <= c.gateway.addr <= p.addr + size - 1
  {
    if c.network.V4Prefix? {
      var p := c.network.prefix;
      assert p.Network() == p.addr <==> p.addr % p.Size() == 0;
      if c.gateway.V4? {
        ContainsIsAnInterval(p, c.gateway.addr);
      }
      if p.Network() == p.addr && p.bits >= 16 && IsPrivate(p.addr) {
        BlockStaysPrivate(p);
      }
    }
  }

  /** The gateway is reported exactly when it is no IPv4 address, or the network parsed and does not
      reach from its first to its last address around it. */
  lemma GatewayIsAcceptedExactlyWhen(c: Config)
    requires c.network.Parsed()
    ensures GatewayOk(c) <==>
            && c.gateway.V4?
            && (c.network.NoPrefix? || (c.network.V4Prefix? && Within(c.network.prefix, c.gateway.addr)))
  {
    if c.network.V4Prefix? && c.gateway.V4? {
      ContainsIsAnInterval(c.network.prefix, c.gateway.addr);
    }
  }

  /** From the multiple of the size at or below the prefix's address, that many addresses. */
  predicate Within(p: Prefix, a: Addr)
    requires p.Valid()
  {
    var size := Pow2(32 - p.bits); var first := p.addr - p.addr % size;
    first <= a <= first + size - 1
  }

  /** An address is reported exactly when it is no IPv4 address, or the gateway's, or the network
      parsed and it is not strictly between the network's first and last address. */
  lemma AddressIsAcceptedExactlyWhen(c: Config, a: ParsedAddr)
    requires c.network.Parsed()
    ensures AddressOk(c, a) <==>
            && a.V4? && a != c.gateway
            && (c.network.NoPrefix? || (c.network.V4Prefix? && StrictlyWithin(c.network.prefix, a.addr)))
  {
    if c.network.V4Prefix? && a.V4? {
      ContainsIsAnInterval(c.network.prefix, a.addr);
      ReservedAreTheTwoEnds(c.network.prefix, a.addr);
    }
  }

  predicate StrictlyWithin(p: Prefix, a: Addr)
    requires p.Valid()
  {
    var size := Pow2(32 - p.bits); var first := p.addr - p.addr % size;
    first < a < first + size - 1
  }

  lemma BlockStaysPrivate(p: Prefix)
    requires p.Valid() && p.bits >= 16 && p.Network() == p.addr && IsPrivate(p.addr)
    ensures PrivateInterval(p.addr, p.addr + p.Size() - 1)
  {
    if 0x0A00_0000 <= p.addr < 0x0B00_0000 {
      PrefixStaysBelow(p, 0x0B00);
    } else if 0xAC10_0000 <= p.addr < 0xAC20_0000 {
      PrefixStaysBelow(p, 0xAC20);
    } else {
      PrefixStaysBelow(p, 0xC0A9);
    }
  }

  // ----- The loop, and exactly what it reports -----

  ghost predicate NameTaken(c: Config, i: nat)
    requires i < |c.clients|
  {
    exists j :: 0 <= j < i && c.clients[j].name == c.clients[i].name
  }

  ghost predicate AddressTaken(c: Config, i: nat)
    requires i < |c.clients|
  {
    exists j :: 0 <= j < i && c.clients[j].address == c.clients[i].address
  }

  ghost predicate DigestTaken(c: Config, i: nat)
    requires i < |c.clients|
  {
    exists j :: 0 <= j < i && DigestOf(c.clients[j]) == DigestOf(c.clients[i])
  }

  /** The problems reported once the first n clients were looked at. */
  ghost predicate Reported(c: Config, p: Problem, n: nat)
    requires c.network.Parsed() && n <= |c.clients|
  {
    match p
    case BadNetwork => !NetworkOk(c.network)
    case BadGateway => !GatewayOk(c)
    case BadMtu => c.mtu < 576 || c.mtu > 1500
    case BadMaxClients => c.maxClients < 1 || c.maxClients > 65535
    case BadSettings => !c.settled
    case NoClients => false
    case BadName(i) => i < n && (c.clients[i].name == "" || NameTaken(c, i))
    case BadAddress(i) => i < n && (!AddressOk(c, c.clients[i].address) || AddressTaken(c, i))
    case BadToken(i) => i < n && (c.clients[i].digest.None? || DigestTaken(c, i))
  }

  /** The seen-sets after the first n clients. */
  ghost function NamesOf(c: Config, n: nat): set<string>
    requires n <= |c.clients|
  {
    if n == 0 then {} else NamesOf(c, n - 1) + {c.clients[n - 1].name}
  }

  ghost function AddressesOf(c: Config, n: nat): set<ParsedAddr>
    requires n <= |c.clients|
  {
    if n == 0 then {} else AddressesOf(c, n - 1) + {c.clients[n - 1].address}
  }

  ghost function DigestsOf(c: Config, n: nat): set<Digest>
    requires n <= |c.clients|
  {
    if n == 0 then {} else DigestsOf(c, n - 1) + {DigestOf(c.clients[n - 1])}
  }

  lemma {:induction false} NamesSeen(c: Config, n: nat, x: string)
    requires n <= |c.clients|
    ensures x in NamesOf(c, n) <==> exists j :: 0 <= j < n && c.clients[j].name == x
  {
    if n > 0 {
      NamesSeen(c, n - 1, x);
      assert c.clients[n - 1].name == x ==> exists j :: 0 <= j < n && c.clients[j].name == x;
    }
  }

  lemma {:induction false} AddressesSeen(c: Config, n: nat, x: ParsedAddr)
    requires n <= |c.clients|
    ensures x in AddressesOf(c, n) <==> exists j :: 0 <= j < n && c.clients[j].address == x
  {
    if n > 0 {
      AddressesSeen(c, n - 1, x);
      assert c.clients[n - 1].address == x ==> exists j :: 0 <= j < n && c.clients[j].address == x;
    }
  }

  lemma {:induction false} DigestsSeen(c: Config, n: nat, x: Digest)
    requires n <= |c.clients|
    ensures x in DigestsOf(c, n) <==> exists j :: 0 <= j < n && DigestOf(c.clients[j]) == x
  {
    if n > 0 {
      DigestsSeen(c, n - 1, x);
      assert DigestOf(c.clients[n - 1]) == x ==> exists j :: 0 <= j < n && DigestOf(c.clients[j]) == x;
    }
  }

  /** What client i adds to the report. */
  ghost predicate ReportedOf(c: Config, p: Problem, i: nat)
    requires c.network.Parsed() && i < |c.clients|
  {
    || (p == BadName(i) && (c.clients[i].name == "" || NameTaken(c, i)))
    || (p == BadAddress(i) && (!AddressOk(c, c.clients[i].address) || AddressTaken(c, i)))
    || (p == BadToken(i) && (c.clients[i].digest.None? || DigestTaken(c, i)))
  }

  lemma ReportGrows(c: Config, p: Problem, i: nat)
    requires c.network.Parsed() && i < |c.clients|
    ensures Reported(c, p, i + 1) <==> Reported(c, p, i) || ReportedOf(c, p, i)
  {}

  /** The three checks of one client, with everything before it in the seen-sets. */
  method CheckClient(c: Config, i: nat, names: set<string>, addresses: set<ParsedAddr>, digests: set<Digest>)
    returns (found: seq<Problem>)
    requires c.network.Parsed() && i < |c.clients|
    requires names == NamesOf(c, i) && addresses == AddressesOf(c, i) && digests == DigestsOf(c, i)
    ensures forall p: Problem :: p in found <==> ReportedOf(c, p, i)
  {
    var client := c.clients[i];
    NamesSeen(c, i, client.name);
    AddressesSeen(c, i, client.address);
    DigestsSeen(c, i, DigestOf(client));
    found := [];
    if client.name == "" || client.name in names {
      found := found + [BadName(i)];
    }
    if !AddressOk(c, client.address) || client.address in addresses {
      found := found + [BadAddress(i)];
    }
    if client.digest.None? || DigestOf(client) in digests {
      found := found + [BadToken(i)];
    }
  }

  /** The checks that look at no client. */
  method CheckSettings(c: Config) returns (found: seq<Problem>)
    requires c.network.Parsed()
    ensures forall p: Problem :: p in found <==> Reported(c, p, 0)
  {
    found := [];
    if !NetworkOk(c.network) {
      found := found + [BadNetwork];
    }
    if !GatewayOk(c) {
      found := found + [BadGateway];
    }
    if c.mtu < 576 || c.mtu > 1500 {
      found := found + [BadMtu];
    }
    if c.maxClients < 1 || c.maxClients > 65535 {
      found := found + [BadMaxClients];
    }
    if !c.settled {
      found := found + [BadSettings];
    }
  }

  /** The client loop, with its three seen-sets. */
  method CheckClients(c: Config) returns (problems: seq<Problem>)
    requires c.network.Parsed()
    ensures forall p: Problem :: Reported(c, p, |c.clients|) <==> p in problems || Reported(c, p, 0)
  {
    problems := [];
    var names: set<string>, addresses: set<ParsedAddr>, digests: set<Digest> := {}, {}, {};
    for i := 0 to |c.clients|
      invariant names == NamesOf(c, i) && addresses == AddressesOf(c, i) && digests == DigestsOf(c, i)
      invariant forall p: Problem :: Reported(c, p, i) <==> p in problems || Reported(c, p, 0)
    {
      var client := c.clients[i];
      var found := CheckClient(c, i, names, addresses, digests);
      forall p: Problem
        ensures Reported(c, p, i + 1) <==> p in problems + found || Reported(c, p, 0)
      {
        ReportGrows(c, p, i);
      }
      problems := problems + found;
      names, addresses, digests := names + {client.name}, addresses + {client.address}, digests + {DigestOf(client)};
    }
  }

  /** Validate reports exactly the problems there are, each client against those before it. */
  method Validate(c: Config) returns (problems: seq<Problem>)
    requires c.network.Parsed()
    ensures forall p: Problem :: p in problems <==> if p.NoClients? then c.clients == [] else Reported(c, p, |c.clients|)
  {
    problems := CheckSettings(c);
    var found := CheckClients(c);
    problems := problems + found;
    if |c.clients| == 0 {
      problems := problems + [NoClients];
    }
  }

  // ----- What an accepted configuration guarantees -----

  ghost predicate PairwiseDistinct(c: Config) {
    forall i, j :: 0 <= i < j < |c.clients| ==>
      c.clients[i].name != c.clients[j].name && c.clients[i].address != c.clients[j].address
      && c.clients[i].digest != c.clients[j].digest
  }

  /** A canonical private network with its gateway inside, sane limits, and at least one client;
      every client has a name, a digest and a host address that is not the gateway's; and no
      two clients share any of the three. */
  ghost predicate Sound(c: Config)
    requires c.network.Parsed()
  {
    && NetworkOk(c.network) && GatewayOk(c) && 576 <= c.mtu <= 1500 && 1 <= c.maxClients <= 65535
    && c.settled && |c.clients| > 0 && PairwiseDistinct(c)
    && forall i :: 0 <= i < |c.clients| ==> ClientOk(c, c.clients[i])
  }

  ghost predicate ClientOk(c: Config, x: Client)
    requires NetworkParsedOk(c)
  {
    && x.name != "" && x.digest.Some? && x.address.V4? && x.address != c.gateway
    && c.network.prefix.Network() < x.address.addr < c.network.prefix.Network() + c.network.prefix.Size() - 1
  }

  predicate NetworkParsedOk(c: Config) { c.network.V4Prefix? && c.network.prefix.Valid() }

  lemma AddressOkIsAHost(c: Config, a: ParsedAddr)
    requires NetworkParsedOk(c)
    ensures AddressOk(c, a) <==>
            a.V4? && a != c.gateway
            && c.network.prefix.Network() < a.addr < c.network.prefix.Network() + c.network.prefix.Size() - 1
  {
    if a.V4? {
      ContainsIsAnInterval(c.network.prefix, a.addr);
      ReservedAreTheTwoEnds(c.network.prefix, a.addr);
    }
  }

  /** Soundness and completeness: nothing is reported exactly when the configuration is sound. */
  lemma NothingReportedIffSound(c: Config)
    requires c.network.Parsed()
    ensures (c.clients != [] && forall p: Problem :: !Reported(c, p, |c.clients|)) <==> Sound(c)
  {
    if c.clients != [] && forall p: Problem :: !Reported(c, p, |c.clients|) {
      assert !Reported(c, BadNetwork, |c.clients|) && !Reported(c, BadGateway, |c.clients|);
      assert !Reported(c, BadMtu, |c.clients|) && !Reported(c, BadMaxClients, |c.clients|);
      assert !Reported(c, BadSettings, |c.clients|);
      forall i | 0 <= i < |c.clients|
        ensures ClientOk(c, c.clients[i])
        ensures forall j :: 0 <= j < i ==>
                  c.clients[i].name != c.clients[j].name && c.clients[i].address != c.clients[j].address
                  && c.clients[i].digest != c.clients[j].digest
      {
        assert !Reported(c, BadName(i), |c.clients|) && !Reported(c, BadAddress(i), |c.clients|);
        assert !Reported(c, BadToken(i), |c.clients|);
        AddressOkIsAHost(c, c.clients[i].address);
      }
    }
    if Sound(c) {
      forall p: Problem
        ensures !Reported(c, p, |c.clients|)
      {
        match p
        case BadName(i) =>
        case BadAddress(i) => if i < |c.clients| { AddressOkIsAHost(c, c.clients[i].address); }
        case BadToken(i) =>
        case _ =>
      }
    }
  }

  lemma Regroup(m: nat, k: nat, n: nat)
    ensures m * k * n == m * (k * n)
  {}

  /** A canonical prefix of at least 16 bits does not straddle a multiple of 2^16. */
  lemma PrefixStaysBelow(p: Prefix, n: nat)
    requires p.Valid() && p.bits >= 16 && p.Network() == p.addr < 0x1_0000 * n
    ensures p.addr + p.Size() <= 0x1_0000 * n
  {
    NetworkIsMultiple(p);
    Pow2Of32();
    var k := Pow2(p.bits - 16);
    Pow2Adds(32 - p.bits, p.bits - 16);
    assert p.Size() * k == 0x1_0000;
    Regroup(p.Size(), k, n);
    MultiplesAreSpaced(p.addr, p.Size(), k * n);
  }

  /** Every client of an accepted configuration has a private address. */
  lemma ClientsArePrivate(c: Config, i: nat)
    requires c.network.Parsed() && Sound(c) && i < |c.clients|
    ensures c.clients[i].address.V4? && IsPrivate(c.clients[i].address.addr)
  {
    BlockStaysPrivate(c.network.prefix);
    assert ClientOk(c, c.clients[i]);
  }

  /** Distinct addresses are as many as the clients that have them. */
  lemma {:induction false} DistinctAreCounted(c: Config, n: nat)
    requires PairwiseDistinct(c) && n <= |c.clients|
    ensures |AddressesOf(c, n)| == n
  {
    if n > 0 {
      DistinctAreCounted(c, n - 1);
      AddressesSeen(c, n - 1, c.clients[n - 1].address);
    }
  }

  /** The n integers from lo on. */
  ghost function Interval(lo: int, n: nat): (s: set<int>)
    ensures |s| == n
    ensures forall x :: x in s <==> lo <= x < lo + n
  {
    if n == 0 then {} else Interval(lo, n - 1) + {lo + n - 1}
  }

  function Host(x: int): ParsedAddr { if 0 <= x < WORD32 then V4(x) else NoAddr }

  /** At most 2^h - 2 clients fit, and one fewer when the gateway takes a host address. */
  lemma ClientsAreFew(c: Config)
    requires c.network.Parsed() && Sound(c)
    ensures var p := c.network.prefix; var h := 32 - p.bits;
            && |c.clients| <= Pow2(h) - 2
            && (p.Network() < c.gateway.addr < p.Network() + p.Size() - 1 ==> |c.clients| <= Pow2(h) - 3)
  {
    var p := c.network.prefix;
    var n := |c.clients|;
    var hosts := Interval(p.Network() + 1, p.Size() - 2);
    DistinctAreCounted(c, n);
    forall a | a in AddressesOf(c, n)
      ensures exists x :: x in hosts - {c.gateway.addr} && Host(x) == a
    {
      AddressesSeen(c, n, a);
      var j :| 0 <= j < n && c.clients[j].address == a;
      assert ClientOk(c, c.clients[j]);
      assert Host(a.addr) == a;
    }
    ImageIsSmaller(hosts - {c.gateway.addr}, AddressesOf(c, n), Host);
  }
}
