/** The server's identity map (internal/server/server.go:42-57), and what an accepted
    configuration makes of the running server. */
module Identities {
  import opened Prelude
  import Topology
  import opened ServerMachine
  import opened ServerOwnership

  function IdentityOf(x: Topology.Client): Identity {
    Identity(x.name, if x.address.V4? then x.address.addr else 0)
  }

  /** The map filled from the first n clients, in order. */
  ghost function IdentityMap(clients: seq<Topology.Client>, n: nat): map<Digest, Identity>
    requires n <= |clients|
  {
    if n == 0 then map[] else IdentityMap(clients, n - 1)[Topology.DigestOf(clients[n - 1]) := IdentityOf(clients[n - 1])]
  }

  /** New: validation, then one map entry per client. */
  method New(c: Topology.Config) returns (r: Result<Conf, Topology.Problem>)
    requires c.network.Parsed()
    ensures r.Success? <==> Topology.Sound(c)
    ensures r.Success? ==> r.value == Conf(IdentityMap(c.clients, |c.clients|), c.maxClients, c.mtu)
    ensures r.Success? ==> AuthenticatesExactly(r.value.ident, c.clients)
  {
    var problems := Topology.Validate(c);
    Topology.NothingReportedIffSound(c);
    if problems != [] {
      assert problems[0] in problems;
      return Failure(problems[0]);
    }
    assert forall p: Topology.Problem :: p !in problems;
    assert Topology.NoClients !in problems;
    var ident: map<Digest, Identity> := map[];
    for i := 0 to |c.clients|
      invariant ident == IdentityMap(c.clients, i)
    {
      assert Topology.ClientOk(c, c.clients[i]);
      ident := ident[c.clients[i].digest.value := IdentityOf(c.clients[i])];
    }
    EveryClientHasItsOwnIdentity(c);
    r := Success(Conf(ident, c.maxClients, c.mtu));
  }

  /** The digests in the map are those of the clients. */
  lemma {:induction false} MappedDigests(clients: seq<Topology.Client>, n: nat, d: Digest)
    requires n <= |clients|
    ensures d in IdentityMap(clients, n) <==> exists i :: 0 <= i < n && Topology.DigestOf(clients[i]) == d
  {
    if n > 0 {
      MappedDigests(clients, n - 1, d);
      if d == Topology.DigestOf(clients[n - 1]) {
        assert exists i :: 0 <= i < n && Topology.DigestOf(clients[i]) == d;
      }
    }
  }

  ghost predicate DistinctDigests(clients: seq<Topology.Client>) {
    forall i, j :: 0 <= i < j < |clients| ==> Topology.DigestOf(clients[i]) != Topology.DigestOf(clients[j])
  }

  /** With distinct digests each client keeps its own entry, and there are no others. */
  lemma {:induction false} EveryClientIsMapped(clients: seq<Topology.Client>, n: nat)
    requires DistinctDigests(clients) && n <= |clients|
    ensures |IdentityMap(clients, n)| == n
    ensures forall i :: 0 <= i < n ==>
              var d := Topology.DigestOf(clients[i]);
              d in IdentityMap(clients, n) && IdentityMap(clients, n)[d] == IdentityOf(clients[i])
  {
    if n > 0 {
      EveryClientIsMapped(clients, n - 1);
      var d := Topology.DigestOf(clients[n - 1]);
      MappedDigests(clients, n - 1, d);
      NewKeyGrows(IdentityMap(clients, n - 1), d, IdentityOf(clients[n - 1]));
      forall i | 0 <= i < n
        ensures var e := Topology.DigestOf(clients[i]);
                e in IdentityMap(clients, n) && IdentityMap(clients, n)[e] == IdentityOf(clients[i])
      {
        assert i < n - 1 ==> Topology.DigestOf(clients[i]) != d;
      }
    }
  }

  lemma NewKeyGrows<K, V>(m: map<K, V>, k: K, v: V)
    requires k !in m
    ensures |m[k := v]| == |m| + 1
  {
    assert m[k := v].Keys == m.Keys + {k};
    assert |m[k := v]| == |m[k := v].Keys|;
  }

  /** Each client's token hash gives that client's own name and address, and no other hash gives
      anything. */
  ghost predicate AuthenticatesExactly(ident: map<Digest, Identity>, clients: seq<Topology.Client>) {
    && |ident| == |clients|
    && (forall i :: 0 <= i < |clients| ==>
          && clients[i].digest.Some? && clients[i].address.V4? && clients[i].digest.value in ident
          && ident[clients[i].digest.value].name == clients[i].name
          && ident[clients[i].digest.value].addr == clients[i].address.addr)
    && forall d :: d in ident ==> exists i :: 0 <= i < |clients| && clients[i].digest == Some(d)
  }

  lemma EveryClientHasItsOwnIdentity(c: Topology.Config)
    requires c.network.Parsed() && Topology.Sound(c)
    ensures AuthenticatesExactly(IdentityMap(c.clients, |c.clients|), c.clients)
  {
    var n := |c.clients|;
    SoundDigestsDiffer(c);
    EveryClientIsMapped(c.clients, n);
    forall i | 0 <= i < n
      ensures Topology.ClientOk(c, c.clients[i])
      ensures c.clients[i].digest == Some(Topology.DigestOf(c.clients[i]))
    {
      assert Topology.ClientOk(c, c.clients[i]);
    }
    forall d | d in IdentityMap(c.clients, n)
      ensures exists i :: 0 <= i < n && c.clients[i].digest == Some(d)
    {
      MappedDigests(c.clients, n, d);
      var i :| 0 <= i < n && Topology.DigestOf(c.clients[i]) == d;
      assert c.clients[i].digest == Some(d);
    }
  }

  lemma SoundDigestsDiffer(c: Topology.Config)
    requires c.network.Parsed() && Topology.Sound(c)
    ensures DistinctDigests(c.clients)
  {
    forall i, j | 0 <= i < j < |c.clients|
      ensures Topology.DigestOf(c.clients[i]) != Topology.DigestOf(c.clients[j])
    {
      assert Topology.ClientOk(c, c.clients[i]) && Topology.ClientOk(c, c.clients[j]);
    }
  }

  /** Two clients of an accepted configuration with the same name or address are the same. */
  lemma SoundClientsDiffer(c: Topology.Config, i: nat, j: nat)
    requires c.network.Parsed() && Topology.Sound(c) && i < |c.clients| && j < |c.clients|
    requires var x, y := IdentityOf(c.clients[i]), IdentityOf(c.clients[j]); x.name == y.name || x.addr == y.addr
    ensures i == j
  {
    assert Topology.ClientOk(c, c.clients[i]) && Topology.ClientOk(c, c.clients[j]);
  }

  /** An accepted configuration authenticates exactly its clients: the map has one entry per
      client, and no two digests share an address or a name. */
  lemma IdentitiesAreInjective(c: Topology.Config)
    requires c.network.Parsed() && Topology.Sound(c)
    ensures var ident := IdentityMap(c.clients, |c.clients|);
            && |ident| == |c.clients|
            && OneAddressEach(ident)
            && forall d, e :: d in ident && e in ident && ident[d].name == ident[e].name ==> d == e
  {
    var n := |c.clients|;
    var ident := IdentityMap(c.clients, n);
    SoundDigestsDiffer(c);
    EveryClientIsMapped(c.clients, n);
    forall d, e | d in ident && e in ident && (ident[d].name == ident[e].name || ident[d].addr == ident[e].addr)
      ensures d == e
    {
      MappedDigests(c.clients, n, d);
      MappedDigests(c.clients, n, e);
      var i :| 0 <= i < n && Topology.DigestOf(c.clients[i]) == d;
      var j :| 0 <= j < n && Topology.DigestOf(c.clients[j]) == e;
      SoundClientsDiffer(c, i, j);
    }
  }

  /** In every run of a server with an accepted configuration, a session is only ever displaced
      by a session of the same client, and the live entries number at most the clients and the
      limit. */
  lemma AcceptedServersKeepClientsApart(c: Topology.Config, steps: seq<Step>)
    requires c.network.Parsed() && Topology.Sound(c)
    ensures var conf := Conf(IdentityMap(c.clients, |c.clients|), c.maxClients, c.mtu); var s := Exec(conf, steps);
            && |s.peers| <= Min(c.maxClients, |c.clients|)
            && forall i: nat, j: nat :: HeldBy(s, i, j) ==>
                 i < |s.sessions| && s.sessions[i].id.name == s.sessions[j].id.name
  {
    var conf := Conf(IdentityMap(c.clients, |c.clients|), c.maxClients, c.mtu);
    IdentitiesAreInjective(c);
    LiveEntriesAreBounded(conf, steps);
    forall i: nat, j: nat | HeldBy(Exec(conf, steps), i, j)
      ensures i < |Exec(conf, steps).sessions| && Exec(conf, steps).sessions[i].id.name == Exec(conf, steps).sessions[j].id.name
    {
      ReplacementNeverCrossesIdentities(conf, steps, i, j);
    }
  }
}
