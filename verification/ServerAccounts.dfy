/** The server's counters against what really happened, over every interleaving. */
module ServerAccounts {
  import opened Prelude
  import opened Ipv4
  import opened Frame
  import opened HubSpec
  import opened ServerMachine
  import opened ServerTraffic
  import ServerOwnership

  predicate IsInvalid(o: Outcome) { o.BadCount? || o.Malformed? }

  predicate IsDropped(o: Outcome) { o.NoPeer? || o.QueueFull? }

  predicate IsEnqueued(o: Outcome) { o.Enqueued? }

  predicate IsAccepted(o: Outcome) { !IsInvalid(o) }

  function AcceptedLength(o: Outcome): nat { if IsInvalid(o) then 0 else |o.packet| }

  predicate IsRejected(x: Session) { x.rejected }

  /** A device write whose counters are still to come. */
  predicate IsTallying(x: Session) { x.pc.Tallying? }

  function TallyLength(x: Session): nat { if x.pc.Tallying? then |x.pc.payload| else 0 }

  function WriteLength(w: (nat, Packet)): nat { |w.1| }

  /** The packets a session was given: carried, in its writer's hand or lost, or still queued. */
  function Custody(x: Session): nat { |x.frames| + |InHand(x.writer)| + |x.queue| }

  /** The packet packetLoop has accepted and not yet dispatched. */
  function Undispatched(l: LoopPc): seq<Packet> {
    match l
    case LookingUp(p) => [p]
    case Sending(_, p) => [p]
    case _ => []
  }

  ghost predicate LoopBooks(k: Counters, outcomes: seq<Outcome>, inFlight: seq<Packet>, rejected: nat) {
    && |inFlight| <= 1
    && k.packetsFromTun == Count(outcomes, IsAccepted) + |inFlight|
    && k.bytesFromTun == Sum(outcomes, AcceptedLength) + (if inFlight == [] then 0 else |inFlight[0]|)
    && k.dropped == Count(outcomes, IsDropped)
    && k.invalid == Count(outcomes, IsInvalid) + rejected
  }

  ghost predicate WriteBooks(k: Counters, tun: seq<(nat, Packet)>, ss: seq<Session>) {
    && k.packetsToTun + Count(ss, IsTallying) == |tun|
    && k.bytesToTun + Sum(ss, TallyLength) == Sum(tun, WriteLength)
  }

  ghost predicate Accounts(s: State) {
    && LoopBooks(s.counters, s.outcomes, Undispatched(s.loop), Count(s.sessions, IsRejected))
    && WriteBooks(s.counters, s.tun, s.sessions)
    && Count(s.outcomes, IsEnqueued) == Sum(s.sessions, Custody)
    && (forall i: nat :: i < |s.sessions| ==> SessionBooks(s.sessions[i]))
  }

  /** A rejected session is leaving, so it is rejected at most once; and no writer holds
      anything before it is started. */
  predicate SessionBooks(x: Session) {
    && (x.rejected ==> x.pc.Unregistering? || x.pc.Cancelling? || x.pc.Finished?)
    && (Unstarted(x) ==> x.writer.NotStarted?)
  }

  /** What the books know of a session. */
  predicate SameEntry(x: Session, y: Session) {
    && y.rejected == x.rejected && IsTallying(y) == IsTallying(x) && TallyLength(y) == TallyLength(x)
    && Custody(y) == Custody(x)
  }

  lemma SameEntriesKeepAccounts(s: State, t: State)
    requires Accounts(s) && |t.sessions| == |s.sessions| && t.tun == s.tun && t.outcomes == s.outcomes && t.loop == s.loop
    requires forall i: nat :: i < |s.sessions| ==> SameEntry(s.sessions[i], t.sessions[i]) && SessionBooks(t.sessions[i])
    requires t.counters == s.counters.(active := t.counters.active, accepted := t.counters.accepted, authRejected := t.counters.authRejected)
    ensures Accounts(t)
  {
    CountSame(s.sessions, t.sessions, IsRejected);
    CountSame(s.sessions, t.sessions, IsTallying);
    SumSame(s.sessions, t.sessions, TallyLength);
    SumSame(s.sessions, t.sessions, Custody);
  }

  /** What one session's step does to its entry and to the counters. */
  lemma LocalEntry(c: Conf, x: Session, k: Counters, h: HandlerStep)
    requires SessionBooks(x)
    ensures var e := LocalStep(c, x, k, h); var y := e.session;
            && SessionBooks(y) && Custody(y) == Custody(x)
            && e.counters == k.(accepted := e.counters.accepted, invalid := e.counters.invalid,
                                packetsToTun := e.counters.packetsToTun, bytesToTun := e.counters.bytesToTun)
            && e.counters.invalid - k.invalid == (if y.rejected then 1 else 0) - (if x.rejected then 1 else 0)
            && e.counters.packetsToTun - k.packetsToTun + (if IsTallying(y) then 1 else 0) - (if IsTallying(x) then 1 else 0)
               == (if e.written.Some? then 1 else 0)
            && e.counters.bytesToTun - k.bytesToTun + TallyLength(y) - TallyLength(x)
               == (if e.written.Some? then |e.written.value| else 0)
  {}

  lemma LocalKeepsAccounts(c: Conf, s: State, i: nat, h: HandlerStep)
    requires Accounts(s) && i < |s.sessions| && !TouchesRegistry(h)
    ensures Accounts(HandlerNext(c, s, i, h))
  {
    var t := HandlerNext(c, s, i, h);
    var e := LocalStep(c, s.sessions[i], s.counters, h);
    LocalEntry(c, s.sessions[i], s.counters, h);
    CountChange(s.sessions, t.sessions, i, IsRejected);
    CountChange(s.sessions, t.sessions, i, IsTallying);
    SumChange(s.sessions, t.sessions, i, TallyLength);
    SumChange(s.sessions, t.sessions, i, Custody);
    if e.written.Some? {
      SumAppend(s.tun, (i, e.written.value), WriteLength);
    }
  }

  lemma RegistryLeavesCounters(c: Conf, s: State, i: nat, h: HandlerStep)
    requires i < |s.sessions| && TouchesRegistry(h)
    ensures var k := RegistryNext(c, s, i, h).counters; k == s.counters.(active := k.active)
    ensures var x, y := s.sessions[i], RegistryNext(c, s, i, h).sessions[i];
            SessionBooks(x) ==> SameEntry(x, y) && SessionBooks(y)
  {
    RegistryFrame(c, s, i, h);
  }

  lemma RegistryKeepsAccounts(c: Conf, s: State, i: nat, h: HandlerStep)
    requires Accounts(s) && i < |s.sessions| && TouchesRegistry(h)
    ensures Accounts(RegistryNext(c, s, i, h))
  {
    RegistryFrame(c, s, i, h);
    RegistryLeavesCounters(c, s, i, h);
    SameEntriesKeepAccounts(s, RegistryNext(c, s, i, h));
  }

  lemma WriterKeepsCustody(x: Session, w: WriterStep)
    ensures SameEntry(x, WriterStepped(x, w))
    ensures SessionBooks(x) ==> SessionBooks(WriterStepped(x, w))
  {}

  lemma WriterKeepsAccounts(s: State, i: nat, w: WriterStep)
    requires Accounts(s) && i < |s.sessions|
    ensures Accounts(WriterNext(s, i, w))
  {
    WriterKeepsCustody(s.sessions[i], w);
    SameEntriesKeepAccounts(s, WriterNext(s, i, w));
  }

  lemma CancelKeepsAccounts(s: State, i: nat)
    requires Accounts(s) && i < |s.sessions|
    ensures Accounts(CancelSession(s, i))
  {
    SameEntriesKeepAccounts(s, CancelSession(s, i));
  }

  lemma OutcomesGrow(outcomes: seq<Outcome>, o: Outcome)
    ensures Count(outcomes + [o], IsAccepted) == Count(outcomes, IsAccepted) + (if IsAccepted(o) then 1 else 0)
    ensures Count(outcomes + [o], IsDropped) == Count(outcomes, IsDropped) + (if IsDropped(o) then 1 else 0)
    ensures Count(outcomes + [o], IsInvalid) == Count(outcomes, IsInvalid) + (if IsInvalid(o) then 1 else 0)
    ensures Count(outcomes + [o], IsEnqueued) == Count(outcomes, IsEnqueued) + (if IsEnqueued(o) then 1 else 0)
    ensures Sum(outcomes + [o], AcceptedLength) == Sum(outcomes, AcceptedLength) + AcceptedLength(o)
  {
    CountAppend(outcomes, o, IsAccepted);
    CountAppend(outcomes, o, IsDropped);
    CountAppend(outcomes, o, IsInvalid);
    CountAppend(outcomes, o, IsEnqueued);
    SumAppend(outcomes, o, AcceptedLength);
  }

  lemma DropKeepsAccounts(s: State, o: Outcome)
    requires Accounts(s) && IsDropped(o) && Undispatched(s.loop) == [o.packet]
    ensures Accounts(Drop(s, o))
  {
    OutcomesGrow(s.outcomes, o);
  }

  lemma QueueingKeepsEntries(s: State, target: nat, p: Packet)
    requires target < |s.sessions|
    ensures var x := s.sessions[target];
            var after := s.sessions[target := x.(queue := x.queue + [p])];
            && Count(after, IsRejected) == Count(s.sessions, IsRejected)
            && Count(after, IsTallying) == Count(s.sessions, IsTallying)
            && Sum(after, TallyLength) == Sum(s.sessions, TallyLength)
            && Sum(after, Custody) == Sum(s.sessions, Custody) + 1
  {
    var after := s.sessions[target := s.sessions[target].(queue := s.sessions[target].queue + [p])];
    CountChange(s.sessions, after, target, IsRejected);
    CountChange(s.sessions, after, target, IsTallying);
    SumChange(s.sessions, after, target, TallyLength);
    SumChange(s.sessions, after, target, Custody);
  }

  lemma QueueingKeepsLoopBooks(k: Counters, outcomes: seq<Outcome>, p: Packet, target: nat, rejected: nat)
    requires LoopBooks(k, outcomes, [p], rejected)
    ensures LoopBooks(k, outcomes + [Enqueued(p, target)], [], rejected)
    ensures Count(outcomes + [Enqueued(p, target)], IsEnqueued) == Count(outcomes, IsEnqueued) + 1
  {
    OutcomesGrow(outcomes, Enqueued(p, target));
  }

  lemma QueueingKeepsAccounts(s: State, target: nat, p: Packet)
    requires Accounts(s) && s.loop == Sending(target, p) && target < |s.sessions|
    requires |s.sessions[target].queue| < QUEUE_CAPACITY
    ensures Accounts(Sent(s, target, p))
  {
    QueueingKeepsLoopBooks(s.counters, s.outcomes, p, target, Count(s.sessions, IsRejected));
    QueueingKeepsEntries(s, target, p);
    var x := s.sessions[target];
    var t := Sent(s, target, p);
    assert t.sessions == s.sessions[target := x.(queue := x.queue + [p])];
    assert LoopBooks(t.counters, t.outcomes, Undispatched(t.loop), Count(t.sessions, IsRejected));
    assert WriteBooks(t.counters, t.tun, t.sessions);
  }

  lemma SendKeepsAccounts(s: State, target: nat, p: Packet)
    requires Accounts(s) && s.loop == Sending(target, p) && target < |s.sessions|
    ensures Accounts(Sent(s, target, p))
  {
    if |s.sessions[target].queue| < QUEUE_CAPACITY {
      QueueingKeepsAccounts(s, target, p);
    } else {
      DropKeepsAccounts(s, QueueFull(p, target));
    }
  }

  lemma InvalidReadKeepsAccounts(s: State, o: Outcome)
    requires Accounts(s) && s.loop.ReadingTun? && IsInvalid(o)
    ensures Accounts(s.(outcomes := s.outcomes + [o], counters := s.counters.(invalid := s.counters.invalid + 1)))
  {
    OutcomesGrow(s.outcomes, o);
  }

  lemma AcceptedReadKeepsAccounts(s: State, p: Packet)
    requires Accounts(s) && s.loop.ReadingTun?
    ensures var k := s.counters;
            Accounts(s.(loop := LookingUp(p), counters := k.(packetsFromTun := k.packetsFromTun + 1, bytesFromTun := k.bytesFromTun + |p|)))
  {}

  lemma ReadKeepsAccounts(s: State, n: int, buffer: seq<Byte>)
    requires Accounts(s) && s.loop.ReadingTun?
    ensures Accounts(ReadFromTun(s, n, buffer))
  {
    if n <= 0 || n > |buffer| {
      InvalidReadKeepsAccounts(s, BadCount);
    } else if !WellFormed(buffer[..n]) {
      InvalidReadKeepsAccounts(s, Malformed(buffer[..n]));
    } else {
      AcceptedReadKeepsAccounts(s, buffer[..n]);
    }
  }

  lemma LookupKeepsAccounts(s: State, p: Packet)
    requires Accounts(s) && s.loop == LookingUp(p) && WellFormed(p)
    ensures Accounts(LookedUp(s, p))
  {
    if Owner(s.peers, Destination(p)).None? {
      DropKeepsAccounts(s, NoPeer(p));
    }
  }

  lemma LoopKeepsAccounts(s: State, l: LoopStep)
    requires Accounts(s)
    ensures Accounts(LoopNext(s, l))
  {
    match l
    case TunRead(n, buffer) => if s.loop.ReadingTun? && |buffer| == MAX_PACKET_SIZE { ReadKeepsAccounts(s, n, buffer); }
    case TunFails =>
    case Lookup => if s.loop.LookingUp? && WellFormed(s.loop.packet) { LookupKeepsAccounts(s, s.loop.packet); }
    case Send => if s.loop.Sending? && s.loop.target < |s.sessions| { SendKeepsAccounts(s, s.loop.target, s.loop.packet); }
  }

  lemma NewSessionKeepsAccounts(s: State, x: Session)
    requires Accounts(s) && x.pc.Registering? && !x.rejected && x.queue == [] && x.frames == [] && x.writer.NotStarted?
    ensures Accounts(s.(sessions := s.sessions + [x]))
  {
    CountAppend(s.sessions, x, IsRejected);
    CountAppend(s.sessions, x, IsTallying);
    SumAppend(s.sessions, x, TallyLength);
    SumAppend(s.sessions, x, Custody);
  }

  lemma ConnectKeepsAccounts(c: Conf, s: State, digest: Option<Digest>, hello: Option<Hello>, welcomed: bool)
    requires Accounts(s)
    ensures Accounts(Connected(c, s, digest, hello, welcomed))
  {
    if digest.None? || digest.value !in c.ident {
      SameEntriesKeepAccounts(s, Connected(c, s, digest, hello, welcomed));
    } else if hello.Some? && hello.value.Acceptable() && welcomed {
      NewSessionKeepsAccounts(s, NewSession(c, digest.value, hello.value));
    }
  }

  lemma StepKeepsAccounts(c: Conf, s: State, step: Step)
    requires Accounts(s)
    ensures Accounts(Next(c, s, step))
  {
    match step
    case Connect(digest, hello, welcomed) => ConnectKeepsAccounts(c, s, digest, hello, welcomed);
    case ContextEnds(i) => if i < |s.sessions| { CancelKeepsAccounts(s, i); }
    case Handler(i, h) =>
      if i < |s.sessions| {
        if TouchesRegistry(h) {
          RegistryKeepsAccounts(c, s, i, h);
        } else {
          LocalKeepsAccounts(c, s, i, h);
        }
      }
    case Writer(i, w) => if i < |s.sessions| { WriterKeepsAccounts(s, i, w); }
    case Loop(l) => LoopKeepsAccounts(s, l);
  }

  lemma {:induction false} EveryRunAccounts(c: Conf, steps: seq<Step>)
    ensures Accounts(Exec(c, steps))
  {
    if |steps| > 0 {
      EveryRunAccounts(c, steps[..|steps| - 1]);
      StepKeepsAccounts(c, Exec(c, steps[..|steps| - 1]), steps[|steps| - 1]);
    }
  }

  lemma {:induction false} OutcomesPartition(outcomes: seq<Outcome>)
    ensures |outcomes| == Count(outcomes, IsInvalid) + Count(outcomes, IsAccepted)
    ensures Count(outcomes, IsAccepted) == Count(outcomes, IsDropped) + Count(outcomes, IsEnqueued)
  {
    if |outcomes| > 0 {
      OutcomesPartition(outcomes[..|outcomes| - 1]);
    }
  }

  // ----- Main results -----

  /** At every iteration boundary of packetLoop each successful read was counted exactly once:
      as invalid, as dropped or as enqueued; and the byte counter is the sum of the accepted
      lengths. Every session adds at most one to the shared Invalid counter. */
  lemma EveryReadIsCountedOnce(c: Conf, steps: seq<Step>)
    requires Exec(c, steps).loop.ReadingTun? || Exec(c, steps).loop.LoopEnded?
    ensures var s := Exec(c, steps); var k := s.counters;
            var rejected := Count(s.sessions, IsRejected); var enqueued := Count(s.outcomes, IsEnqueued);
            && |s.outcomes| == (k.invalid - rejected) + k.dropped + enqueued
            && k.packetsFromTun == enqueued + k.dropped
            && k.bytesFromTun == Sum(s.outcomes, AcceptedLength)
            && rejected <= |s.sessions|
  {
    EveryRunAccounts(c, steps);
    OutcomesPartition(Exec(c, steps).outcomes);
    CountDisjoint(Exec(c, steps).sessions, IsRejected, x => false);
  }

  /** Every packet ever enqueued, for any session that ever existed, was carried, is in a
      writer's hand or lost by it, or is still queued. */
  lemma EnqueuesAreConserved(c: Conf, steps: seq<Step>)
    ensures Count(Exec(c, steps).outcomes, IsEnqueued) == Sum(Exec(c, steps).sessions, Custody)
  {
    EveryRunAccounts(c, steps);
  }

  /** The to-device counters are the device log, up to the writes being tallied. */
  lemma DeviceWritesAreCounted(c: Conf, steps: seq<Step>)
    ensures var s := Exec(c, steps);
            && s.counters.packetsToTun + Count(s.sessions, IsTallying) == |s.tun|
            && s.counters.bytesToTun + Sum(s.sessions, TallyLength) == Sum(s.tun, WriteLength)
  {
    EveryRunAccounts(c, steps);
  }

  predicate Unauthenticated(c: Conf, step: Step) {
    step.Connect? && (step.digest.None? || step.digest.value !in c.ident)
  }

  lemma LocalLeavesRefusals(c: Conf, x: Session, k: Counters, h: HandlerStep)
    ensures LocalStep(c, x, k, h).counters.authRejected == k.authRejected
  {}

  lemma RegistryLeavesRefusals(c: Conf, s: State, i: nat, h: HandlerStep)
    requires i < |s.sessions|
    ensures RegistryNext(c, s, i, h).counters.authRejected == s.counters.authRejected
  {}

  lemma StepCountsRefusals(c: Conf, s: State, step: Step)
    ensures Next(c, s, step).counters.authRejected == s.counters.authRejected + (if Unauthenticated(c, step) then 1 else 0)
  {
    match step
    case Handler(i, h) =>
      if i < |s.sessions| {
        LocalLeavesRefusals(c, s.sessions[i], s.counters, h);
        RegistryLeavesRefusals(c, s, i, h);
      }
    case _ =>
  }

  /** AuthRejected counts exactly the requests without a configured token, and no such request
      becomes a session: every session carries an identity of the configuration. */
  lemma {:induction false} RefusalsAreCounted(c: Conf, steps: seq<Step>)
    ensures Exec(c, steps).counters.authRejected == Count(steps, (t: Step) => Unauthenticated(c, t))
    ensures forall i: nat :: i < |Exec(c, steps).sessions| ==> Exec(c, steps).sessions[i].id in c.ident.Values
  {
    if |steps| > 0 {
      RefusalsAreCounted(c, steps[..|steps| - 1]);
      StepCountsRefusals(c, Exec(c, steps[..|steps| - 1]), steps[|steps| - 1]);
    }
    ServerOwnership.EveryRun(c, steps);
  }
}
