/** Who owns an address, over every interleaving: replacement, the session gauge, capacity and
    the lock-ordered history. */
module ServerOwnership {
  import opened Prelude
  import opened HubSpec
  import opened ServerMachine

  /** Registered, and not yet unregistered. */
  predicate InHub(x: Session) {
    !(x.pc.Registering? || x.pc.Cancelling? || x.pc.Finished?)
  }

  predicate Owns(s: State, i: nat) {
    i < |s.sessions| && Owner(s.peers, s.sessions[i].id.addr) == Some(i)
  }

  /** Registered, not yet unregistered, and no longer the owner of its address. */
  predicate Displaced(s: State, i: nat) {
    i < |s.sessions| && InHub(s.sessions[i]) && !Owns(s, i)
  }

  /** Register call j is between its unlock and the Cancel of session i. */
  predicate HeldBy(s: State, i: nat, j: nat) {
    j < |s.sessions| && s.sessions[j].pc == Locked(Some(i))
  }

  ghost predicate PeersAreSessions(s: State) {
    forall a :: a in s.peers ==>
      s.peers[a] < |s.sessions| && s.sessions[s.peers[a]].id.addr == a && InHub(s.sessions[s.peers[a]])
  }

  ghost predicate HeldAreDisplaced(s: State) {
    forall i: nat, j: nat :: HeldBy(s, i, j) ==>
      i < |s.sessions| && i != j && s.sessions[i].id.addr == s.sessions[j].id.addr
      && !s.sessions[i].pc.Registering? && !Owns(s, i)
  }

  ghost predicate HeldOnce(s: State) {
    forall i: nat, j: nat, k: nat :: HeldBy(s, i, j) && HeldBy(s, i, k) ==> j == k
  }

  ghost predicate DisplacedAreHandled(s: State) {
    forall i: nat :: Displaced(s, i) && !s.sessions[i].cancelled ==> exists j: nat :: HeldBy(s, i, j)
  }

  ghost predicate Ownership(s: State) {
    PeersAreSessions(s) && HeldAreDisplaced(s) && HeldOnce(s) && DisplacedAreHandled(s)
  }

  /** Steps that touch neither the registry nor a session's place in the protocol. */
  ghost predicate SameProtocol(s: State, t: State) {
    && t.peers == s.peers
    && |t.sessions| == |s.sessions|
    && forall i: nat :: 0 <= i < |s.sessions| ==>
      var x, y := s.sessions[i], t.sessions[i];
      y.id == x.id && InHub(y) == InHub(x) && y.pc.Locked? == x.pc.Locked?
      && (x.pc.Locked? ==> y.pc == x.pc) && (x.pc.Registering? == y.pc.Registering?) && (x.cancelled ==> y.cancelled)
  }

  lemma SameProtocolKeepsOwnership(s: State, t: State)
    requires Ownership(s) && SameProtocol(s, t)
    ensures Ownership(t)
  {
    assert forall i: nat, j: nat :: HeldBy(t, i, j) <==> HeldBy(s, i, j);
    assert forall i: nat :: Owns(t, i) <==> Owns(s, i);
    assert forall i: nat :: Displaced(t, i) <==> Displaced(s, i);
    forall i: nat | Displaced(t, i) && !t.sessions[i].cancelled
      ensures exists j: nat :: HeldBy(t, i, j)
    {
      var j: nat :| HeldBy(s, i, j);
      assert HeldBy(t, i, j);
    }
  }

  lemma RefusalKeepsOwnership(s: State, i: nat)
    requires Ownership(s) && i < |s.sessions| && s.sessions[i].pc.Registering?
    ensures Ownership(Goto(s, i, Cancelling))
  {
    var t := Goto(s, i, Cancelling);
    assert forall k: nat, j: nat :: HeldBy(t, k, j) <==> HeldBy(s, k, j);
    assert forall k: nat :: Owns(t, k) <==> Owns(s, k);
    forall k: nat | Displaced(t, k) && !t.sessions[k].cancelled
      ensures exists j: nat :: HeldBy(t, k, j)
    {
      assert Displaced(s, k);
      var j: nat :| HeldBy(s, k, j);
      assert HeldBy(t, k, j);
    }
  }

  /** Installing makes i the owner and hands it the displaced owner to cancel. */
  lemma Installs(c: Conf, s: State, i: nat)
    requires Ownership(s) && i < |s.sessions| && s.sessions[i].pc.Registering?
    requires Install(s.peers, c.maxClients, s.sessions[i].id.addr, i).Some?
    ensures var t := LockedRegister(c, s, i); var displaced := Owner(s.peers, s.sessions[i].id.addr);
            && !Owns(s, i)
            && t.sessions == s.sessions[i := s.sessions[i].(pc := Locked(displaced))]
            && (forall k: nat, j: nat :: HeldBy(t, k, j) <==> HeldBy(s, k, j) || (j == i && displaced == Some(k)))
            && (forall k: nat :: Owns(t, k) <==> k == i || (Owns(s, k) && displaced != Some(k)))
  {}

  lemma InstallKeepsHolders(c: Conf, s: State, i: nat)
    requires Ownership(s) && i < |s.sessions| && s.sessions[i].pc.Registering?
    requires Install(s.peers, c.maxClients, s.sessions[i].id.addr, i).Some?
    ensures var t := LockedRegister(c, s, i); PeersAreSessions(t) && HeldAreDisplaced(t) && HeldOnce(t)
  {
    Installs(c, s, i);
  }

  lemma InstallKeepsOwnership(c: Conf, s: State, i: nat)
    requires Ownership(s) && i < |s.sessions| && s.sessions[i].pc.Registering?
    requires Install(s.peers, c.maxClients, s.sessions[i].id.addr, i).Some?
    ensures Ownership(LockedRegister(c, s, i))
  {
    InstallKeepsHolders(c, s, i);
    Installs(c, s, i);
    var t := LockedRegister(c, s, i);
    forall k: nat | Displaced(t, k) && !t.sessions[k].cancelled
      ensures exists j: nat :: HeldBy(t, k, j)
    {
      if Owner(s.peers, s.sessions[i].id.addr) == Some(k) {
        assert HeldBy(t, k, i);
      } else {
        assert Displaced(s, k);
        var j: nat :| HeldBy(s, k, j);
        assert HeldBy(t, k, j);
      }
    }
  }

  lemma LockedRegisterKeepsOwnership(c: Conf, s: State, i: nat)
    requires Ownership(s) && i < |s.sessions| && s.sessions[i].pc.Registering?
    ensures Ownership(LockedRegister(c, s, i))
  {
    if Install(s.peers, c.maxClients, s.sessions[i].id.addr, i).Some? {
      InstallKeepsOwnership(c, s, i);
    } else {
      RefusalKeepsOwnership(s, i);
    }
  }

  /** Once the displaced session is cancelled, the Register call may forget it. */
  lemma ReleaseKeepsOwnership(s: State, i: nat)
    requires Ownership(s) && i < |s.sessions| && s.sessions[i].pc.Locked?
    requires forall o: nat :: HeldBy(s, o, i) ==> s.sessions[o].cancelled
    ensures Ownership(Goto(s, i, Accepting))
  {
    var t := Goto(s, i, Accepting);
    assert forall k: nat, j: nat :: HeldBy(t, k, j) <==> HeldBy(s, k, j) && j != i;
    assert forall k: nat :: Owns(t, k) <==> Owns(s, k);
    forall k: nat | Displaced(t, k) && !t.sessions[k].cancelled
      ensures exists j: nat :: HeldBy(t, k, j)
    {
      assert Displaced(s, k);
      var j: nat :| HeldBy(s, k, j);
      assert HeldBy(t, k, j);
    }
  }

  lemma CancelKeepsOwnership(s: State, o: nat)
    requires Ownership(s) && o < |s.sessions|
    ensures Ownership(CancelSession(s, o))
  {
    SameProtocolKeepsOwnership(s, CancelSession(s, o));
  }

  lemma CountersKeepOwnership(s: State, counters: Counters)
    requires Ownership(s)
    ensures Ownership(s.(counters := counters))
  {
    SameProtocolKeepsOwnership(s, s.(counters := counters));
  }

  lemma GaugeKeepsOwnership(s: State, i: nat)
    requires Ownership(s) && i < |s.sessions| && s.sessions[i].pc == Locked(None)
    ensures Ownership(FinishRegister(s, i, None))
  {
    ReleaseKeepsOwnership(s, i);
    CountersKeepOwnership(Goto(s, i, Accepting), s.counters.(active := s.counters.active + 1));
  }

  lemma EvictionKeepsOwnership(s: State, i: nat, o: nat)
    requires Ownership(s) && i < |s.sessions| && s.sessions[i].pc == Locked(Some(o))
    ensures Ownership(FinishRegister(s, i, Some(o)))
  {
    assert HeldBy(s, o, i);
    var t := CancelSession(s, o);
    CancelKeepsOwnership(s, o);
    assert forall k: nat :: HeldBy(t, k, i) ==> k == o;
    ReleaseKeepsOwnership(t, i);
  }

  lemma LockedUnregisterKeepsOwnership(s: State, i: nat)
    requires Ownership(s) && i < |s.sessions| && s.sessions[i].pc.Unregistering?
    ensures Ownership(LockedUnregister(s, i))
  {
    var t := LockedUnregister(s, i);
    assert forall k: nat, j: nat :: HeldBy(t, k, j) <==> HeldBy(s, k, j);
    forall k: nat | Displaced(t, k) && !t.sessions[k].cancelled
      ensures exists j: nat :: HeldBy(t, k, j)
    {
      assert Displaced(s, k);
      var j: nat :| HeldBy(s, k, j);
      assert HeldBy(t, k, j);
    }
  }

  lemma ConnectKeepsOwnership(c: Conf, s: State, digest: Option<Digest>, hello: Option<Hello>, welcomed: bool)
    requires Ownership(s)
    ensures Ownership(Connected(c, s, digest, hello, welcomed))
  {
    var t := Connected(c, s, digest, hello, welcomed);
    assert forall i: nat, j: nat :: HeldBy(t, i, j) <==> HeldBy(s, i, j);
    forall k: nat | Displaced(t, k) && !t.sessions[k].cancelled
      ensures exists j: nat :: HeldBy(t, k, j)
    {
      assert Displaced(s, k);
      var j: nat :| HeldBy(s, k, j);
      assert HeldBy(t, k, j);
    }
  }

  lemma LocalKeepsPlace(c: Conf, x: Session, k: Counters, h: HandlerStep)
    requires !TouchesRegistry(h)
    ensures var y := LocalStep(c, x, k, h).session;
            && y.id == x.id && InHub(y) == InHub(x) && y.pc.Locked? == x.pc.Locked? && (x.pc.Locked? ==> y.pc == x.pc)
            && y.pc.Registering? == x.pc.Registering? && (x.cancelled ==> y.cancelled)
  {}

  lemma QuietHandlerKeepsProtocol(c: Conf, s: State, i: nat, h: HandlerStep)
    requires i < |s.sessions| && !TouchesRegistry(h)
    ensures SameProtocol(s, HandlerNext(c, s, i, h))
  {
    LocalKeepsPlace(c, s.sessions[i], s.counters, h);
  }

  lemma RegistryKeepsOwnership(c: Conf, s: State, i: nat, h: HandlerStep)
    requires Ownership(s) && i < |s.sessions| && TouchesRegistry(h)
    ensures Ownership(RegistryNext(c, s, i, h))
  {
    match (h, s.sessions[i].pc)
    case (RegisterLocked, Registering) => LockedRegisterKeepsOwnership(c, s, i);
    case (RegisterEffect, Locked(None)) => GaugeKeepsOwnership(s, i);
    case (RegisterEffect, Locked(Some(o))) => EvictionKeepsOwnership(s, i, o);
    case (Unregister, Unregistering) => LockedUnregisterKeepsOwnership(s, i);
    case _ =>
  }

  lemma StepKeepsOwnership(c: Conf, s: State, step: Step)
    requires Ownership(s)
    ensures Ownership(Next(c, s, step))
  {
    match step
    case Connect(digest, hello, welcomed) => ConnectKeepsOwnership(c, s, digest, hello, welcomed);
    case ContextEnds(i) => if i < |s.sessions| { CancelKeepsOwnership(s, i); }
    case Handler(i, h) =>
      if i < |s.sessions| {
        if TouchesRegistry(h) {
          RegistryKeepsOwnership(c, s, i, h);
        } else {
          QuietHandlerKeepsProtocol(c, s, i, h);
          SameProtocolKeepsOwnership(s, HandlerNext(c, s, i, h));
        }
      }
    case Writer(i, w) =>
      if i < |s.sessions| {
        WriterFrame(s.sessions[i], w);
        SameProtocolKeepsOwnership(s, WriterNext(s, i, w));
      }
    case Loop(l) =>
      LoopFrame(s, l);
      SameProtocolKeepsOwnership(s, LoopNext(s, l));
  }

  /** A fresh registration between its unlock and its Add(1) on the gauge. */
  predicate IsFresh(x: Session) { x.pc == Locked(None) }

  /** A registration whose Accepted.Add(1) is still to come. */
  predicate IsUncounted(x: Session) { x.pc.Locked? || x.pc.Accepting? }

  predicate IsRegistration(e: Event<nat>) { e.Registered? }

  /** The gauge lags the registry by exactly the fresh registrations in flight, and Accepted
      lags the history by the registrations in flight. */
  ghost predicate Books(c: Conf, s: State) {
    && s.counters.active + Count(s.sessions, IsFresh) == |s.peers| <= Max(c.maxClients, 0)
    && s.counters.accepted + Count(s.sessions, IsUncounted) == Count(s.history, IsRegistration)
  }

  ghost predicate Configured(c: Conf, s: State) {
    forall i: nat :: i < |s.sessions| ==> s.sessions[i].id in c.ident.Values
  }

  /** Steps that leave the registry, its counters and every pending side effect alone. */
  ghost predicate SameBooks(s: State, t: State) {
    && t.peers == s.peers && t.history == s.history && |t.sessions| == |s.sessions|
    && t.counters.active == s.counters.active && t.counters.accepted == s.counters.accepted
    && forall i: nat :: i < |s.sessions| ==>
      t.sessions[i].id == s.sessions[i].id
      && IsFresh(t.sessions[i]) == IsFresh(s.sessions[i])
      && IsUncounted(t.sessions[i]) == IsUncounted(s.sessions[i])
  }

  lemma SameBooksKeepsBooks(c: Conf, s: State, t: State)
    requires Books(c, s) && SameBooks(s, t)
    ensures Books(c, t)
    ensures Configured(c, s) ==> Configured(c, t)
  {
    CountSame(s.sessions, t.sessions, IsFresh);
    CountSame(s.sessions, t.sessions, IsUncounted);
  }

  lemma LockedRegisterCounts(c: Conf, s: State, i: nat)
    requires i < |s.sessions| && s.sessions[i].pc.Registering?
    ensures var t := LockedRegister(c, s, i); var a := s.sessions[i].id.addr;
            var ok := Install(s.peers, c.maxClients, a, i).Some?;
            && Count(t.sessions, IsFresh) == Count(s.sessions, IsFresh) + (if ok && a !in s.peers then 1 else 0)
            && Count(t.sessions, IsUncounted) == Count(s.sessions, IsUncounted) + (if ok then 1 else 0)
            && Count(t.history, IsRegistration) == Count(s.history, IsRegistration) + (if ok then 1 else 0)
  {
    var t := LockedRegister(c, s, i);
    CountChange(s.sessions, t.sessions, i, IsFresh);
    CountChange(s.sessions, t.sessions, i, IsUncounted);
    CountAppend(s.history, Registered(s.sessions[i].id.addr, i), IsRegistration);
  }

  lemma LockedRegisterKeepsBooks(c: Conf, s: State, i: nat)
    requires Books(c, s) && i < |s.sessions| && s.sessions[i].pc.Registering?
    ensures Books(c, LockedRegister(c, s, i))
  {
    var a := s.sessions[i].id.addr;
    LockedRegisterCounts(c, s, i);
    InstallRespectsCapacity(s.peers, Max(c.maxClients, 0), a, i);
  }

  lemma FinishRegisterKeepsBooks(c: Conf, s: State, i: nat)
    requires Books(c, s) && Ownership(s) && i < |s.sessions| && s.sessions[i].pc.Locked?
    ensures Books(c, FinishRegister(s, i, s.sessions[i].pc.displaced))
  {
    var displaced := s.sessions[i].pc.displaced;
    var t := FinishRegister(s, i, displaced);
    assert displaced.Some? ==> HeldBy(s, displaced.value, i);
    CountChange(s.sessions, t.sessions, i, IsFresh);
    CountChange(s.sessions, t.sessions, i, IsUncounted);
  }

  lemma LockedUnregisterKeepsBooks(c: Conf, s: State, i: nat)
    requires Books(c, s) && i < |s.sessions| && s.sessions[i].pc.Unregistering?
    ensures Books(c, LockedUnregister(s, i))
  {
    var t := LockedUnregister(s, i);
    var a := s.sessions[i].id.addr;
    CountChange(s.sessions, t.sessions, i, IsFresh);
    CountChange(s.sessions, t.sessions, i, IsUncounted);
    CountAppend(s.history, Unregistered(a, i), IsRegistration);
    if Owner(s.peers, a) == Some(i) {
      assert s.peers.Keys == (s.peers - {a}).Keys + {a};
    }
  }

  lemma RegisterAcceptKeepsBooks(c: Conf, s: State, i: nat)
    requires Books(c, s) && i < |s.sessions| && s.sessions[i].pc.Accepting?
    ensures Books(c, HandlerNext(c, s, i, RegisterAccept))
  {
    var t := HandlerNext(c, s, i, RegisterAccept);
    CountChange(s.sessions, t.sessions, i, IsFresh);
    CountChange(s.sessions, t.sessions, i, IsUncounted);
  }

  lemma NewSessionKeepsBooks(c: Conf, s: State, x: Session)
    requires Books(c, s) && Configured(c, s) && x.pc.Registering? && x.id in c.ident.Values
    ensures Books(c, s.(sessions := s.sessions + [x])) && Configured(c, s.(sessions := s.sessions + [x]))
  {
    CountAppend(s.sessions, x, IsFresh);
    CountAppend(s.sessions, x, IsUncounted);
  }

  lemma ConnectKeepsBooks(c: Conf, s: State, digest: Option<Digest>, hello: Option<Hello>, welcomed: bool)
    requires Books(c, s) && Configured(c, s)
    ensures Books(c, Connected(c, s, digest, hello, welcomed)) && Configured(c, Connected(c, s, digest, hello, welcomed))
  {
    var t := Connected(c, s, digest, hello, welcomed);
    if |t.sessions| == |s.sessions| {
      SameBooksKeepsBooks(c, s, t);
    } else {
      NewSessionKeepsBooks(c, s, t.sessions[|s.sessions|]);
    }
  }

  lemma HandlerKeepsIdentities(c: Conf, s: State, i: nat, h: HandlerStep)
    requires i < |s.sessions|
    ensures |HandlerNext(c, s, i, h).sessions| == |s.sessions|
    ensures forall k: nat :: k < |s.sessions| ==> HandlerNext(c, s, i, h).sessions[k].id == s.sessions[k].id
  {
    HandlerFrame(c, s, i, h);
  }

  lemma LocalKeepsBooks(c: Conf, x: Session, k: Counters, h: HandlerStep)
    requires !TouchesRegistry(h) && !h.RegisterAccept?
    ensures var e := LocalStep(c, x, k, h);
            && e.session.id == x.id && IsFresh(e.session) == IsFresh(x) && IsUncounted(e.session) == IsUncounted(x)
            && e.counters.active == k.active && e.counters.accepted == k.accepted
  {}

  lemma RegistryKeepsBooks(c: Conf, s: State, i: nat, h: HandlerStep)
    requires Ownership(s) && Books(c, s) && i < |s.sessions| && TouchesRegistry(h)
    ensures Books(c, RegistryNext(c, s, i, h))
  {
    match (h, s.sessions[i].pc)
    case (RegisterLocked, Registering) => LockedRegisterKeepsBooks(c, s, i);
    case (RegisterEffect, Locked(displaced)) => FinishRegisterKeepsBooks(c, s, i);
    case (Unregister, Unregistering) => LockedUnregisterKeepsBooks(c, s, i);
    case _ =>
  }

  lemma HandlerKeepsBooks(c: Conf, s: State, i: nat, h: HandlerStep)
    requires Ownership(s) && Books(c, s) && Configured(c, s) && i < |s.sessions|
    ensures Books(c, HandlerNext(c, s, i, h)) && Configured(c, HandlerNext(c, s, i, h))
  {
    HandlerKeepsIdentities(c, s, i, h);
    if TouchesRegistry(h) {
      RegistryKeepsBooks(c, s, i, h);
    } else if h.RegisterAccept? && s.sessions[i].pc.Accepting? {
      RegisterAcceptKeepsBooks(c, s, i);
    } else {
      if !h.RegisterAccept? {
        LocalKeepsBooks(c, s.sessions[i], s.counters, h);
      }
      SameBooksKeepsBooks(c, s, HandlerNext(c, s, i, h));
    }
  }

  lemma LoopKeepsActive(s: State, l: LoopStep)
    ensures var k := LoopNext(s, l).counters;
            k.active == s.counters.active && k.accepted == s.counters.accepted
  {}

  lemma StepKeepsBooks(c: Conf, s: State, step: Step)
    requires Ownership(s) && Books(c, s) && Configured(c, s)
    ensures Books(c, Next(c, s, step)) && Configured(c, Next(c, s, step))
  {
    match step
    case Connect(digest, hello, welcomed) => ConnectKeepsBooks(c, s, digest, hello, welcomed);
    case Handler(i, h) => if i < |s.sessions| { HandlerKeepsBooks(c, s, i, h); }
    case ContextEnds(i) => if i < |s.sessions| { SameBooksKeepsBooks(c, s, CancelSession(s, i)); }
    case Writer(i, w) => if i < |s.sessions| { WriterKeepsBooks(c, s, i, w); }
    case Loop(l) => LoopKeepsBooks(c, s, l);
  }

  lemma WriterKeepsBooks(c: Conf, s: State, i: nat, w: WriterStep)
    requires Books(c, s) && Configured(c, s) && i < |s.sessions|
    ensures Books(c, WriterNext(s, i, w)) && Configured(c, WriterNext(s, i, w))
  {
    WriterFrame(s.sessions[i], w);
    SameBooksKeepsBooks(c, s, WriterNext(s, i, w));
  }

  lemma LoopKeepsBooks(c: Conf, s: State, l: LoopStep)
    requires Books(c, s) && Configured(c, s)
    ensures Books(c, LoopNext(s, l)) && Configured(c, LoopNext(s, l))
  {
    LoopFrame(s, l);
    LoopKeepsActive(s, l);
    SameBooksKeepsBooks(c, s, LoopNext(s, l));
  }

  lemma StepKeepsHistory(c: Conf, s: State, step: Step)
    requires LatestWins(s.peers, s.history)
    ensures var t := Next(c, s, step); LatestWins(t.peers, t.history)
  {
    match step
    case Handler(i, h) =>
      if i < |s.sessions| {
        RegistryFollowsHistory(s.peers, s.history, c.maxClients, s.sessions[i].id.addr, i);
        RegistryMoves(c, s, i, h);
      }
    case Loop(l) => LoopFrame(s, l);
    case _ =>
  }

  lemma FinishKeepsRegistry(s: State, i: nat, displaced: Option<nat>)
    requires i < |s.sessions|
    ensures var t := FinishRegister(s, i, displaced); t.peers == s.peers && t.history == s.history
  {}

  /** A handler step leaves the registry and its history, or installs, or evicts. */
  lemma RegistryMoves(c: Conf, s: State, i: nat, h: HandlerStep)
    requires i < |s.sessions|
    ensures var t := HandlerNext(c, s, i, h); var a := s.sessions[i].id.addr;
            || (t.peers == s.peers && t.history == s.history)
            || (Install(s.peers, c.maxClients, a, i) == Some(t.peers) && t.history == s.history + [Registered(a, i)])
            || (t.peers == Evict(s.peers, a, i) && t.history == s.history + [Unregistered(a, i)])
  {
    if TouchesRegistry(h) {
      match (h, s.sessions[i].pc)
      case (RegisterEffect, Locked(displaced)) => FinishKeepsRegistry(s, i, displaced);
      case _ =>
    }
  }

  /** Every run keeps ownership, the books and the configured identities. */
  lemma {:induction false} EveryRun(c: Conf, steps: seq<Step>)
    ensures Ownership(Exec(c, steps)) && Books(c, Exec(c, steps)) && Configured(c, Exec(c, steps))
  {
    if |steps| > 0 {
      var init := steps[..|steps| - 1];
      EveryRun(c, init);
      StepKeepsOwnership(c, Exec(c, init), steps[|steps| - 1]);
      StepKeepsBooks(c, Exec(c, init), steps[|steps| - 1]);
    }
  }

  // ----- Main results -----

  /** A displaced session is cancelled, or exactly one Register call is about to cancel it. */
  lemma DisplacedIsCancelledOrHeldOnce(c: Conf, steps: seq<Step>, i: nat)
    requires Displaced(Exec(c, steps), i)
    ensures var s := Exec(c, steps);
            s.sessions[i].cancelled
            || exists j: nat :: HeldBy(s, i, j) && forall k: nat :: HeldBy(s, i, k) ==> k == j
  {
    EveryRun(c, steps);
  }

  /** What Register cancels is never the owner of an address. */
  lemma RegisterNeverCancelsAnOwner(c: Conf, steps: seq<Step>, i: nat, j: nat)
    requires HeldBy(Exec(c, steps), i, j)
    ensures var s := Exec(c, steps);
            i < |s.sessions| && i != j && !Owns(s, i) && s.sessions[i].id.addr == s.sessions[j].id.addr
  {
    EveryRun(c, steps);
  }

  /** No Register call is past its unlock and before its side effects. */
  ghost predicate NoRegisterInFlight(s: State) {
    forall j: nat :: j < |s.sessions| ==> !s.sessions[j].pc.Locked?
  }

  /** At rest each address has at most one uncancelled session. */
  lemma OneLiveOwnerAtRest(c: Conf, steps: seq<Step>, i: nat, j: nat)
    requires NoRegisterInFlight(Exec(c, steps))
    requires i < |Exec(c, steps).sessions| && j < |Exec(c, steps).sessions|
    requires InHub(Exec(c, steps).sessions[i]) && !Exec(c, steps).sessions[i].cancelled
    requires InHub(Exec(c, steps).sessions[j]) && !Exec(c, steps).sessions[j].cancelled
    requires Exec(c, steps).sessions[i].id.addr == Exec(c, steps).sessions[j].id.addr
    ensures i == j && Owns(Exec(c, steps), i)
  {
    EveryRun(c, steps);
  }

  /** The documented atomic replacement: no displaced session is still live. */
  ghost predicate Replaced(s: State) {
    forall i: nat :: Displaced(s, i) ==> s.sessions[i].cancelled
  }

  /** It holds exactly in the states where no Register call is about to cancel a live session. */
  lemma ReplacementIsAtomicExactlyWhenNoCancelIsPending(c: Conf, steps: seq<Step>)
    ensures var s := Exec(c, steps);
            Replaced(s) <==>
            forall j: nat :: j < |s.sessions| && s.sessions[j].pc.Locked? && s.sessions[j].pc.displaced.Some? ==>
              var i := s.sessions[j].pc.displaced.value;
              i < |s.sessions| && (s.sessions[i].cancelled || !InHub(s.sessions[i]))
  {
    EveryRun(c, steps);
    var s := Exec(c, steps);
    forall j: nat | j < |s.sessions| && s.sessions[j].pc.Locked? && s.sessions[j].pc.displaced.Some?
      ensures HeldBy(s, s.sessions[j].pc.displaced.value, j)
    {}
  }

  /** The gauge is exact up to the fresh registrations in flight, so it is never below minus
      their number, and it is the registry's size exactly when there are none. */
  lemma GaugeIsExactUpToFreshRegistrations(c: Conf, steps: seq<Step>)
    ensures var s := Exec(c, steps);
            && s.counters.active == |s.peers| - Count(s.sessions, IsFresh)
            && s.counters.active + Count(s.sessions, IsFresh) >= 0
            && (s.counters.active == |s.peers| <==>
                forall i: nat :: i < |s.sessions| ==> !IsFresh(s.sessions[i]))
  {
    EveryRun(c, steps);
    CountZero(Exec(c, steps).sessions, IsFresh);
  }

  /** Accepted counts the registrations of the history, up to those in flight. */
  lemma AcceptedCountsRegistrations(c: Conf, steps: seq<Step>)
    ensures var s := Exec(c, steps);
            s.counters.accepted + Count(s.sessions, IsUncounted) == Count(s.history, IsRegistration)
  {
    EveryRun(c, steps);
  }

  /** After any history the owner of an address is the last session registered there, unless
      that very session unregistered. */
  lemma {:induction false} LatestRegistrationWins(c: Conf, steps: seq<Step>)
    ensures forall a: Addr, i: nat ::
              Owner(Exec(c, steps).peers, a) == Some(i) <==> Holds(Exec(c, steps).history, a, i)
  {
    if |steps| > 0 {
      var init := steps[..|steps| - 1];
      LatestRegistrationWins(c, init);
      StepKeepsHistory(c, Exec(c, init), steps[|steps| - 1]);
    } else {
      assert forall a: Addr, p: nat :: !Holds(INITIAL.history, a, p);
    }
  }

  /** Each configured digest has its own address. */
  ghost predicate OneAddressEach(ident: map<Digest, Identity>) {
    forall d, e :: d in ident && e in ident && ident[d].addr == ident[e].addr ==> d == e
  }

  /** A replacement always belongs to the same configured client as the session it displaces. */
  lemma ReplacementNeverCrossesIdentities(c: Conf, steps: seq<Step>, i: nat, j: nat)
    requires OneAddressEach(c.ident)
    requires HeldBy(Exec(c, steps), i, j)
    ensures var s := Exec(c, steps); i < |s.sessions| && s.sessions[i].id == s.sessions[j].id
  {
    EveryRun(c, steps);
  }

  /** The address configured for a digest; any address for an unknown one. */
  function AddressOf(ident: map<Digest, Identity>): Digest -> Addr {
    d => if d in ident then ident[d].addr else 0
  }

  lemma RegistryIsConfigured(c: Conf, s: State, a: Addr) returns (d: Digest)
    requires PeersAreSessions(s) && Configured(c, s) && a in s.peers
    ensures d in c.ident && c.ident[d].addr == a
  {
    var id := s.sessions[s.peers[a]].id;
    d :| d in c.ident && c.ident[d] == id;
  }

  lemma RegistryIsNoLargerThanConfiguration(c: Conf, s: State)
    requires PeersAreSessions(s) && Configured(c, s)
    ensures |s.peers| <= |c.ident|
  {
    var f := AddressOf(c.ident);
    forall a | a in s.peers.Keys
      ensures exists d :: d in c.ident.Keys && f(d) == a
    {
      var d := RegistryIsConfigured(c, s, a);
      assert f(d) == a;
    }
    ImageIsSmaller(c.ident.Keys, s.peers.Keys, f);
    assert |s.peers| == |s.peers.Keys| && |c.ident| == |c.ident.Keys|;
  }

  /** Live entries number at most the configured clients and at most the configured limit. */
  lemma LiveEntriesAreBounded(c: Conf, steps: seq<Step>)
    requires c.maxClients >= 0
    ensures |Exec(c, steps).peers| <= Min(c.maxClients, |c.ident|)
  {
    EveryRun(c, steps);
    RegistryIsNoLargerThanConfiguration(c, Exec(c, steps));
  }

  // ----- A run that shows what the simple claims miss -----

  const TOKEN: Digest := seq(32, _ => 0)

  const ONE_CLIENT := Conf(map[TOKEN := Identity("laptop", 0x0A4D_0002)], 1, 1280)

  const HELLO := Hello("laptop", "id", 1280)

  /** Two handshakes with the same token; the second registers over the first. */
  const OVERLAP: seq<Step> := [
    Connect(Some(TOKEN), Some(HELLO), true), Connect(Some(TOKEN), Some(HELLO), true),
    Handler(0, RegisterLocked), Handler(1, RegisterLocked)]

  /** The second finishes Register, then its connection ends and it unregisters. */
  const HURRY: seq<Step> := [
    Handler(1, RegisterEffect), Handler(1, RegisterAccept), ContextEnds(1), Handler(1, Check), Handler(1, Unregister)]

  /** The rest of a run, from step k. */
  function Resume(c: Conf, s: State, steps: seq<Step>, k: nat): State
    requires k <= |steps|
    decreases |steps| - k
  {
    if k == |steps| then s else Resume(c, Next(c, s, steps[k]), steps, k + 1)
  }

  lemma {:induction false} ExecResumes(c: Conf, done: seq<Step>, steps: seq<Step>, k: nat)
    requires k <= |steps|
    ensures Exec(c, done + steps) == Resume(c, Exec(c, done + steps[..k]), steps, k)
    decreases |steps| - k
  {
    if k == |steps| {
      assert steps[..k] == steps;
    } else {
      ExecOneMore(c, done + steps[..k], steps[k]);
      ExecResumes(c, done, steps, k + 1);
      assert done + steps[..k + 1] == done + steps[..k] + [steps[k]];
    }
  }

  const LAPTOP: Addr := 0x0A4D_0002

  const WAITING := Session(Identity("laptop", LAPTOP), 1280, Registering, false, false, [], NotStarted, [], [])

  /** Both sessions are live at one address. */
  const OVERLAPPED := INITIAL.(
    sessions := [WAITING.(pc := Locked(None)), WAITING.(pc := Locked(Some(0)))],
    peers := map[LAPTOP := 1],
    history := [Registered(LAPTOP, 0), Registered(LAPTOP, 1)])

  lemma HandshakeRun(sessions: seq<Session>)
    ensures Next(ONE_CLIENT, INITIAL.(sessions := sessions), Connect(Some(TOKEN), Some(HELLO), true))
            == INITIAL.(sessions := sessions + [WAITING])
  {}

  lemma OverlapRun()
    ensures Exec(ONE_CLIENT, OVERLAP) == OVERLAPPED
  {
    var c := ONE_CLIENT;
    ExecResumes(c, [], OVERLAP, 0);
    assert [] + OVERLAP == OVERLAP && [] + OVERLAP[..0] == [];
    HandshakeRun([]);
    HandshakeRun([WAITING]);
    var s2 := INITIAL.(sessions := [WAITING, WAITING]);
    var s1 := INITIAL.(sessions := [WAITING]);
    assert INITIAL.(sessions := []) == INITIAL;
    assert [WAITING] + [WAITING] == [WAITING, WAITING] && [] + [WAITING] == [WAITING];
    assert Next(c, INITIAL, OVERLAP[0]) == s1 && Next(c, s1, OVERLAP[1]) == s2;
    OverlapRegisters(s2);
  }

  lemma OverlapRegisters(s: State)
    requires s == INITIAL.(sessions := [WAITING, WAITING])
    ensures Resume(ONE_CLIENT, s, OVERLAP, 2) == OVERLAPPED
  {
    var c := ONE_CLIENT;
    var t := Next(c, s, OVERLAP[2]);
    assert t.peers == map[LAPTOP := 0] && t.sessions == [WAITING.(pc := Locked(None)), WAITING];
    assert Next(c, t, OVERLAP[3]) == OVERLAPPED;
    assert Resume(c, OVERLAPPED, OVERLAP, 4) == OVERLAPPED;
  }

  lemma HurryRun(c: Conf, s: State)
    requires s == OVERLAPPED
    ensures Resume(c, s, HURRY, 0).counters.active == -1 && Resume(c, s, HURRY, 0).peers == map[]
  {
    var s1 := Next(c, s, HURRY[0]);
    var s2 := Next(c, s1, HURRY[1]);
    var s3 := Next(c, s2, HURRY[2]);
    assert s3.sessions[1] == WAITING.(pc := Checking, cancelled := true, writer := Idle);
    var s4 := Next(c, s3, HURRY[3]);
    assert s4.sessions[1].pc == Unregistering && s4.peers == map[LAPTOP := 1] && s4.counters.active == 0;
    var s5 := Next(c, s4, HURRY[4]);
    assert Resume(c, s5, HURRY, 5) == s5;
    assert Resume(c, s3, HURRY, 3) == s5;
    assert Resume(c, s1, HURRY, 1) == s5;
  }

  /** Between the unlock and the Cancel both sessions are live at one address, so replacement
      is not atomic; and the second may leave before the first bumps the gauge, which then
      reads -1 with an empty registry. */
  lemma ReplacementAndGaugeLag()
    ensures Displaced(Exec(ONE_CLIENT, OVERLAP), 0) && Owns(Exec(ONE_CLIENT, OVERLAP), 1)
    ensures !Replaced(Exec(ONE_CLIENT, OVERLAP))
    ensures Exec(ONE_CLIENT, OVERLAP + HURRY).counters.active == -1
    ensures Exec(ONE_CLIENT, OVERLAP + HURRY).peers == map[]
  {
    OverlapRun();
    ExecResumes(ONE_CLIENT, OVERLAP, HURRY, 0);
    assert OVERLAP + HURRY[..0] == OVERLAP;
    HurryRun(ONE_CLIENT, OVERLAPPED);
  }
}
