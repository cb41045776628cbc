/** What the hub's three critical sections do to the registry, for any notion of peer, and
    what the registry must be after any history of them (internal/core/hub.go). */
module HubSpec {
  import opened Prelude

  /** The peer registered at an address, if any. */
  function Owner<P>(peers: map<Addr, P>, a: Addr): Option<P> {
    if a in peers then Some(peers[a]) else None
  }

  /** Register under the lock: refused only for a new address at capacity. */
  function Install<P>(peers: map<Addr, P>, max: int, a: Addr, p: P): Option<map<Addr, P>> {
    if a !in peers && |peers| >= max then None else Some(peers[a := p])
  }

  /** Unregister under the lock: removes the entry only if it is still this peer. */
  function Evict<P(==)>(peers: map<Addr, P>, a: Addr, p: P): map<Addr, P> {
    if a in peers && peers[a] == p then peers - {a} else peers
  }

  /** The non-blocking send: refused only by a full queue. */
  function Offer<Q>(queue: seq<Q>, capacity: nat, q: Q): Option<seq<Q>> {
    if |queue| < capacity then Some(queue + [q]) else None
  }

  /** One critical section, in lock order. */
  datatype Event<P> = Registered(addr: Addr, peer: P) | Unregistered(addr: Addr, peer: P)

  /** e takes p's place at a: any registration there, or p's own unregistration. */
  predicate Ends<P(==)>(e: Event<P>, a: Addr, p: P) {
    e.addr == a && (e.Registered? || e.peer == p)
  }

  ghost predicate HoldsSince<P>(history: seq<Event<P>>, a: Addr, p: P, k: int) {
    && 0 <= k < |history|
    && history[k] == Registered(a, p)
    && forall m :: k < m < |history| ==> !Ends(history[m], a, p)
  }

  /** p's registration at a is the last one there, and p has not unregistered since. */
  ghost predicate Holds<P>(history: seq<Event<P>>, a: Addr, p: P) {
    exists k :: HoldsSince(history, a, p, k)
  }

  /** The registry holds exactly what the history says, at every address. */
  ghost predicate LatestWins<P(!new)>(peers: map<Addr, P>, history: seq<Event<P>>) {
    forall a: Addr, p: P :: Owner(peers, a) == Some(p) <==> Holds(history, a, p)
  }

  /** One more event ends p's hold exactly when it takes p's place, and starts it exactly when
      it registers p. */
  lemma HoldsAfter<P>(history: seq<Event<P>>, e: Event<P>, a: Addr, p: P)
    ensures Holds(history + [e], a, p) <==> e == Registered(a, p) || (Holds(history, a, p) && !Ends(e, a, p))
  {
    var after := history + [e];
    var n := |history|;
    assert after[n] == e;
    if k :| HoldsSince(after, a, p, k) {
      if k < n {
        assert forall m :: k < m < n ==> after[m] == history[m];
        assert HoldsSince(history, a, p, k);
      }
    }
    if e == Registered(a, p) {
      assert HoldsSince(after, a, p, n);
    }
    if !Ends(e, a, p) {
      if k :| HoldsSince(history, a, p, k) {
        assert HoldsSince(after, a, p, k);
      }
    }
  }

  /** Installing and evicting keep the registry equal to what the lock-ordered history says:
      the latest registration wins, and a late unregister of a displaced peer changes nothing. */
  lemma RegistryFollowsHistory<P(!new)>(peers: map<Addr, P>, history: seq<Event<P>>, max: int, a: Addr, p: P)
    requires LatestWins(peers, history)
    ensures Install(peers, max, a, p).Some? ==>
              LatestWins(Install(peers, max, a, p).value, history + [Registered(a, p)])
    ensures LatestWins(Evict(peers, a, p), history + [Unregistered(a, p)])
  {
    forall b: Addr, q: P
      ensures Install(peers, max, a, p).Some? ==>
                (Owner(Install(peers, max, a, p).value, b) == Some(q) <==> Holds(history + [Registered(a, p)], b, q))
      ensures Owner(Evict(peers, a, p), b) == Some(q) <==> Holds(history + [Unregistered(a, p)], b, q)
    {
      HoldsAfter(history, Registered(a, p), b, q);
      HoldsAfter(history, Unregistered(a, p), b, q);
    }
  }

  /** A registration is refused exactly for a new address when the registry is full, and otherwise
      makes the peer the owner of its address and of no other. */
  lemma InstallIsRefusedExactlyWhenFull<P>(peers: map<Addr, P>, max: int, a: Addr, p: P)
    ensures Install(peers, max, a, p).Some? <==> a in peers || |peers| < max
    ensures Install(peers, max, a, p).Some? ==>
              forall b: Addr :: Owner(Install(peers, max, a, p).value, b) == if b == a then Some(p) else Owner(peers, b)
  {}

  /** Installing never exceeds the capacity, and replacing an owner is never refused. */
  lemma InstallRespectsCapacity<P>(peers: map<Addr, P>, max: int, a: Addr, p: P)
    requires |peers| <= max
    ensures a in peers ==> Install(peers, max, a, p).Some?
    ensures Install(peers, max, a, p).Some? ==>
              |Install(peers, max, a, p).value| == (if a in peers then |peers| else |peers| + 1) <= max
  {
    var after := peers[a := p];
    assert after.Keys == peers.Keys + {a};
    if a in peers {
      assert after.Keys == peers.Keys;
    }
  }
}
