/** The sessions of one address take turns: packets are queued for them in the order in which
    they registered, over every interleaving. */
module ServerTurns {
  import opened Prelude
  import opened Ipv4
  import opened HubSpec
  import opened ServerTraffic
  import S = ServerMachine
  import O = ServerOwnership

  // ----- The order of registrations -----

  type History = seq<Event<nat>>

  /** When a session registered first; the length of the history if it has not. */
  function Turn(h: History, i: nat): nat {
    if |h| == 0 then 0
    else
      var n := |h| - 1;
      var before := Turn(h[..n], i);
      if before < n || (h[n].Registered? && h[n].peer == i) then before else n + 1
  }

  lemma {:induction false} TurnIsInRange(h: History, i: nat)
    ensures Turn(h, i) <= |h|
  {
    if |h| > 0 {
      TurnIsInRange(h[..|h| - 1], i);
    }
  }

  lemma TurnGrows(h: History, e: Event<nat>, i: nat)
    ensures Turn(h + [e], i) ==
            if Turn(h, i) < |h| || (e.Registered? && e.peer == i) then Turn(h, i) else |h| + 1
  {
    TurnIsInRange(h, i);
    assert (h + [e])[..|h|] == h;
  }

  predicate Queues(o: S.Outcome) { o.Enqueued? }

  /** Both went to sessions of one address. */
  predicate SameAddress(ss: seq<S.Session>, i: nat, j: nat) {
    i < |ss| && j < |ss| && ss[i].id.addr == ss[j].id.addr
  }

  /** Both were queued, for sessions of one address. */
  predicate Rivals(ss: seq<S.Session>, o: S.Outcome, q: S.Outcome) {
    Queues(o) && Queues(q) && SameAddress(ss, o.peer, q.peer)
  }

  /** A registration is its session's only one, for its own address. */
  ghost predicate RegisteredOnce(h: History, ss: seq<S.Session>) {
    forall k: nat :: k < |h| && h[k].Registered? ==>
      h[k].peer < |ss| && !ss[h[k].peer].pc.Registering? && h[k].addr == ss[h[k].peer].id.addr && Turn(h, h[k].peer) == k
  }

  /** Packets for an address are queued for its sessions in the order of their registrations. */
  ghost predicate QueuedInTurn(h: History, ss: seq<S.Session>, outcomes: seq<S.Outcome>) {
    && (forall k: nat :: k < |outcomes| && Queues(outcomes[k]) ==> outcomes[k].peer < |ss| && Turn(h, outcomes[k].peer) < |h|)
    && (forall j: nat, k: nat :: j < k < |outcomes| && Rivals(ss, outcomes[j], outcomes[k]) ==>
          Turn(h, outcomes[j].peer) <= Turn(h, outcomes[k].peer))
  }

  /** None of the packets for its address was queued for a session registered later. */
  ghost predicate InTurn(h: History, ss: seq<S.Session>, outcomes: seq<S.Outcome>, target: nat) {
    && target < |ss| && Turn(h, target) < |h|
    && forall k: nat :: k < |outcomes| && Queues(outcomes[k]) && SameAddress(ss, outcomes[k].peer, target) ==>
      Turn(h, outcomes[k].peer) <= Turn(h, target)
  }

  ghost predicate Turns(s: S.State) {
    && RegisteredOnce(s.history, s.sessions)
    && QueuedInTurn(s.history, s.sessions, s.outcomes)
    && (s.loop.Sending? ==> InTurn(s.history, s.sessions, s.outcomes, s.loop.target))
  }

  /** Identities stay, and nobody goes back to registering. */
  ghost predicate Onward(ss: seq<S.Session>, tt: seq<S.Session>) {
    |ss| <= |tt| && forall i: nat :: i < |ss| ==> tt[i].id == ss[i].id && (tt[i].pc.Registering? ==> ss[i].pc.Registering?)
  }

  lemma OnwardKeepsTurns(s: S.State, t: S.State)
    requires Turns(s) && Onward(s.sessions, t.sessions)
    requires t.history == s.history && t.outcomes == s.outcomes && t.loop == s.loop
    ensures Turns(t)
  {}

  lemma FinishedReadKeepsTurns(s: S.State, o: S.Outcome, k: S.Counters)
    requires Turns(s) && !Queues(o)
    ensures Turns(s.(loop := S.ReadingTun, outcomes := s.outcomes + [o], counters := k))
  {}

  /** The owner of an address is the last to have registered there. */
  lemma OwnerIsInTurn(s: S.State, a: Addr)
    requires Turns(s) && LatestWins(s.peers, s.history) && a in s.peers
    ensures InTurn(s.history, s.sessions, s.outcomes, s.peers[a])
  {
    var i := s.peers[a];
    assert Owner(s.peers, a) == Some(i);
    var k :| HoldsSince(s.history, a, i, k);
    assert Turn(s.history, i) == k;
    forall m: nat | m < |s.outcomes| && Queues(s.outcomes[m]) && SameAddress(s.sessions, s.outcomes[m].peer, i)
      ensures Turn(s.history, s.outcomes[m].peer) <= k
    {
      var j := s.outcomes[m].peer;
      TurnIsARegistration(s.history, j);
      assert !Ends(s.history[Turn(s.history, j)], a, i) || Turn(s.history, j) <= k;
    }
  }

  lemma {:induction false} TurnIsARegistration(h: History, i: nat)
    requires Turn(h, i) < |h|
    ensures h[Turn(h, i)].Registered? && h[Turn(h, i)].peer == i
  {
    var n := |h| - 1;
    TurnIsInRange(h[..n], i);
    if Turn(h[..n], i) < n {
      TurnIsARegistration(h[..n], i);
    }
  }

  lemma SendKeepsTurns(s: S.State, target: nat, p: Packet)
    requires Turns(s) && s.loop == S.Sending(target, p) && target < |s.sessions|
    ensures Turns(S.Sent(s, target, p))
  {
    if |s.sessions[target].queue| < S.QUEUE_CAPACITY {
      var ss := S.Sent(s, target, p).sessions;
      assert forall i: nat :: i < |ss| ==> ss[i].id == s.sessions[i].id && ss[i].pc == s.sessions[i].pc;
      QueueingKeepsTurns(s.history, s.sessions, s.outcomes, p, target);
    } else {
      FinishedReadKeepsTurns(s, S.QueueFull(p, target), S.Sent(s, target, p).counters);
    }
  }

  lemma QueueingKeepsTurns(h: History, ss: seq<S.Session>, outcomes: seq<S.Outcome>, p: Packet, target: nat)
    requires QueuedInTurn(h, ss, outcomes) && InTurn(h, ss, outcomes, target)
    ensures QueuedInTurn(h, ss, outcomes + [S.Enqueued(p, target)])
  {}

  lemma LoopKeepsTurns(s: S.State, l: S.LoopStep)
    requires Turns(s) && LatestWins(s.peers, s.history) && O.Ownership(s) && Downlink(s)
    ensures Turns(S.LoopNext(s, l))
  {
    var t := S.LoopNext(s, l);
    match (l, s.loop)
    case (TunRead(n, buffer), ReadingTun) =>
      if |t.outcomes| > |s.outcomes| {
        FinishedReadKeepsTurns(s, t.outcomes[|s.outcomes|], t.counters);
      }
    case (Lookup, LookingUp(p)) =>
      if Owner(s.peers, Destination(p)).None? {
        FinishedReadKeepsTurns(s, S.NoPeer(p), t.counters);
      } else {
        OwnerIsInTurn(s, Destination(p));
      }
    case (Send, Sending(target, p)) => SendKeepsTurns(s, target, p);
    case _ =>
  }

  /** A registry event beyond every turn already taken. */
  lemma EventKeepsTurns(h: History, ss: seq<S.Session>, outcomes: seq<S.Outcome>, e: Event<nat>)
    requires RegisteredOnce(h, ss)
    ensures forall i: nat :: Turn(h, i) < |h| ==> Turn(h + [e], i) == Turn(h, i)
    ensures QueuedInTurn(h, ss, outcomes) ==> QueuedInTurn(h + [e], ss, outcomes)
    ensures forall target: nat :: InTurn(h, ss, outcomes, target) ==> InTurn(h + [e], ss, outcomes, target)
  {
    forall i: nat
      ensures Turn(h, i) < |h| ==> Turn(h + [e], i) == Turn(h, i)
    {
      TurnGrows(h, e, i);
    }
  }

  lemma RegistrationIsItsFirst(h: History, ss: seq<S.Session>, a: Addr, i: nat)
    requires RegisteredOnce(h, ss) && i < |ss| && ss[i].pc.Registering? && a == ss[i].id.addr
    ensures Turn(h + [Registered(a, i)], i) == |h|
  {
    TurnIsInRange(h, i);
    if Turn(h, i) < |h| {
      TurnIsARegistration(h, i);
    }
    TurnGrows(h, Registered(a, i), i);
  }

  /** One session moved on, and a registry event was recorded for it. */
  lemma RecordedKeepsTurns(s: S.State, t: S.State, i: nat, e: Event<nat>)
    requires Turns(s) && i < |s.sessions| && Onward(s.sessions, t.sessions)
    requires t.history == s.history + [e] && t.outcomes == s.outcomes && t.loop == s.loop
    requires e.Registered? ==> e == Registered(s.sessions[i].id.addr, i) && s.sessions[i].pc.Registering? && !t.sessions[i].pc.Registering?
    ensures Turns(t)
  {
    EventKeepsTurns(s.history, s.sessions, s.outcomes, e);
    if e.Registered? {
      RegistrationIsItsFirst(s.history, s.sessions, s.sessions[i].id.addr, i);
    }
    forall k: nat | k < |t.history| && t.history[k].Registered?
      ensures t.history[k].peer < |t.sessions| && !t.sessions[t.history[k].peer].pc.Registering?
              && t.history[k].addr == t.sessions[t.history[k].peer].id.addr && Turn(t.history, t.history[k].peer) == k
    {
      if k < |s.history| {
        assert t.history[k] == s.history[k];
      }
    }
    QueuedStays(s, t);
  }

  lemma QueuedStays(s: S.State, t: S.State)
    requires Onward(s.sessions, t.sessions) && t.outcomes == s.outcomes && t.loop == s.loop
    requires QueuedInTurn(t.history, s.sessions, s.outcomes)
    requires s.loop.Sending? ==> InTurn(t.history, s.sessions, s.outcomes, s.loop.target)
    ensures QueuedInTurn(t.history, t.sessions, t.outcomes)
    ensures t.loop.Sending? ==> InTurn(t.history, t.sessions, t.outcomes, t.loop.target)
  {}

  lemma HandlerGoesOnward(c: S.Conf, s: S.State, i: nat, h: S.HandlerStep)
    requires i < |s.sessions|
    ensures Onward(s.sessions, S.HandlerNext(c, s, i, h).sessions)
    ensures var t := S.HandlerNext(c, s, i, h);
            t.history == s.history
            || (t.history == s.history + [Registered(s.sessions[i].id.addr, i)] && s.sessions[i].pc.Registering? && t.sessions[i].pc.Locked?)
            || t.history == s.history + [Unregistered(s.sessions[i].id.addr, i)]
  {
    S.HandlerFrame(c, s, i, h);
    if S.TouchesRegistry(h) {
      S.RegistryFrame(c, s, i, h);
      RegistryRecords(c, s, i, h);
    } else {
      LocalGoesOnward(c, s.sessions[i], s.counters, h);
    }
  }

  lemma LocalGoesOnward(c: S.Conf, x: S.Session, k: S.Counters, h: S.HandlerStep)
    ensures S.LocalStep(c, x, k, h).session.pc.Registering? ==> x.pc.Registering?
  {}

  lemma RegistryRecords(c: S.Conf, s: S.State, i: nat, h: S.HandlerStep)
    requires i < |s.sessions| && S.TouchesRegistry(h)
    ensures var t := S.RegistryNext(c, s, i, h);
            t.history == s.history
            || (t.history == s.history + [Registered(s.sessions[i].id.addr, i)] && s.sessions[i].pc.Registering? && t.sessions[i].pc.Locked?)
            || t.history == s.history + [Unregistered(s.sessions[i].id.addr, i)]
  {
    match (h, s.sessions[i].pc)
    case (RegisterEffect, Locked(displaced)) => O.FinishKeepsRegistry(s, i, displaced);
    case _ =>
  }

  lemma HandlerKeepsTurns(c: S.Conf, s: S.State, i: nat, h: S.HandlerStep)
    requires Turns(s) && i < |s.sessions|
    ensures Turns(S.HandlerNext(c, s, i, h))
  {
    var t := S.HandlerNext(c, s, i, h);
    S.HandlerFrame(c, s, i, h);
    HandlerGoesOnward(c, s, i, h);
    if t.history == s.history {
      OnwardKeepsTurns(s, t);
    } else {
      RecordedKeepsTurns(s, t, i, t.history[|s.history|]);
    }
  }

  lemma StepKeepsTurns(c: S.Conf, s: S.State, step: S.Step)
    requires Turns(s) && LatestWins(s.peers, s.history) && O.Ownership(s) && Downlink(s)
    ensures Turns(S.Next(c, s, step))
  {
    match step
    case Handler(i, h) => if i < |s.sessions| { HandlerKeepsTurns(c, s, i, h); }
    case Loop(l) => LoopKeepsTurns(s, l);
    case _ => OnwardKeepsTurns(s, S.Next(c, s, step));
  }

  lemma {:induction false} EveryRunKeepsTurns(c: S.Conf, steps: seq<S.Step>)
    ensures Turns(S.Exec(c, steps))
  {
    if |steps| > 0 {
      var init := steps[..|steps| - 1];
      EveryRunKeepsTurns(c, init);
      O.EveryRun(c, init);
      O.LatestRegistrationWins(c, init);
      EveryRunDownlink(c, init);
      StepKeepsTurns(c, S.Exec(c, init), steps[|steps| - 1]);
    }
  }
}
