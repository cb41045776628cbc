/** What the server can be made to do, and all it does: every step of a handshake, a registration, a
    message and a packet by its exact condition, and runs from the start that go as far as the
    bounds allow. */
module ServerProgress {
  import opened Prelude
  import opened Ipv4
  import opened Frame
  import opened HubSpec
  import opened ServerTraffic
  import opened ServerUplink
  import opened Runs
  import S = ServerMachine
  import O = ServerOwnership
  import Negotiation

  // ----- Handshakes -----

  /** The HELLO the server accepts: a session id of 1 to 128 characters and an MTU of 576 to
      1500. */
  predicate GoodHello(hello: S.Hello) { 1 <= |hello.sessionId| <= 128 && 576 <= hello.mtu <= 1500 }

  /** A handshake makes a session exactly when the token is configured, the HELLO is good and the
      WELCOME was written; the session is that token's, with the smaller MTU, and about to
      register. */
  lemma HandshakesThatMakeSessions(c: S.Conf, s: S.State, digest: Option<Digest>, hello: Option<S.Hello>, welcomed: bool)
    ensures var t := S.Next(c, s, S.Connect(digest, hello, welcomed));
            if digest.Some? && digest.value in c.ident && hello.Some? && GoodHello(hello.value) && welcomed then
              && |t.sessions| == |s.sessions| + 1 && t.sessions[..|s.sessions|] == s.sessions
              && var x := t.sessions[|s.sessions|];
              && x.id == c.ident[digest.value] && x.mtu == Min(c.mtu, hello.value.mtu)
              && x.pc == S.Registering && !x.cancelled && x.queue == [] && x.received == []
            else t.sessions == s.sessions
  {}

  // ----- Registrations -----

  /** Under the lock: a new address is refused exactly when the registry is full; otherwise the
      session becomes the owner of its address and holds the owner it displaced, if any. */
  lemma RegistersExactlyWhen(c: S.Conf, s: S.State, i: nat)
    requires i < |s.sessions| && s.sessions[i].pc == S.Registering
    ensures var t := S.Next(c, s, S.Handler(i, S.RegisterLocked)); var a := s.sessions[i].id.addr;
            if a in s.peers || |s.peers| < c.maxClients then
              && t.peers == s.peers[a := i]
              && t.sessions == s.sessions[i := s.sessions[i].(pc := S.Locked(if a in s.peers then Some(s.peers[a]) else None))]
            else t.peers == s.peers && t.sessions == s.sessions[i := s.sessions[i].(pc := S.Cancelling)]
  {}

  /** After the lock a registration cancels the session it displaced, or counts a fresh one, and goes
      on to serve; on the way out a session removes its own entry, if it still has it, and nothing
      else. */
  lemma RegistrationsGoOn(c: S.Conf, s: S.State, i: nat)
    requires i < |s.sessions|
    ensures s.sessions[i].pc.Locked? ==>
              var t := S.Next(c, s, S.Handler(i, S.RegisterEffect)); var displaced := s.sessions[i].pc.displaced;
              && |t.sessions| == |s.sessions| && t.sessions[i].pc == S.Accepting && t.peers == s.peers
              && t.counters.active == s.counters.active + (if displaced.None? then 1 else 0)
              && (displaced.Some? && displaced.value < |s.sessions| ==> t.sessions[displaced.value].cancelled)
    ensures s.sessions[i].pc == S.Accepting ==>
              S.Next(c, s, S.Handler(i, S.RegisterAccept)).sessions == s.sessions[i := Served(s.sessions[i])]
    ensures s.sessions[i].pc == S.Unregistering ==>
              var t := S.Next(c, s, S.Handler(i, S.Unregister)); var a := s.sessions[i].id.addr;
              && t.sessions == s.sessions[i := s.sessions[i].(pc := S.Cancelling)]
              && (if a in s.peers && s.peers[a] == i then
                    t.peers == s.peers - {a} && t.counters.active == s.counters.active - 1
                  else t.peers == s.peers && t.counters.active == s.counters.active)
  {}

  /** The session after a registration, and the one it displaced. */
  function Served(x: S.Session): S.Session { x.(pc := S.Checking, writer := S.Idle) }

  /** A registration with a fresh address, all three steps. */
  lemma RegistersFresh(c: S.Conf, before: seq<S.Step>, i: nat) returns (steps: seq<S.Step>)
    requires var s := S.Exec(c, before);
             && i < |s.sessions| && s.sessions[i].pc == S.Registering
             && s.sessions[i].id.addr !in s.peers && |s.peers| < c.maxClients
    ensures var s, t := S.Exec(c, before), S.Exec(c, steps);
            && t.peers == s.peers[s.sessions[i].id.addr := i] && t.sessions == s.sessions[i := Served(s.sessions[i])]
            && t.loop == s.loop
  {
    var s := S.Exec(c, before);
    var x := s.sessions[i];
    RegistersExactlyWhen(c, s, i);
    S.ExecOneMore(c, before, S.Handler(i, S.RegisterLocked));
    steps := before + [S.Handler(i, S.RegisterLocked)];
    S.ExecOneMore(c, steps, S.Handler(i, S.RegisterEffect));
    steps := steps + [S.Handler(i, S.RegisterEffect)];
    assert S.Exec(c, steps).sessions == s.sessions[i := x.(pc := S.Accepting)];
    S.ExecOneMore(c, steps, S.Handler(i, S.RegisterAccept));
    steps := steps + [S.Handler(i, S.RegisterAccept)];
  }

  /** These configured tokens have addresses of their own. */
  ghost predicate Apart(c: S.Conf, digests: seq<Digest>) {
    && (forall i :: 0 <= i < |digests| ==> digests[i] in c.ident)
    && (forall i, j :: 0 <= i < j < |digests| ==> c.ident[digests[i]].addr != c.ident[digests[j]].addr)
  }

  /** Each of these tokens has a live session of its own that owns its address, and nobody else is
      registered. */
  ghost predicate AllServed(c: S.Conf, s: S.State, digests: seq<Digest>)
    requires Apart(c, digests)
  {
    && |s.sessions| == |digests| == |s.peers| && s.loop == S.ReadingTun
    && (forall i: nat :: i < |digests| ==>
          var x := s.sessions[i];
          x.id == c.ident[digests[i]] && x.pc == S.Checking && !x.cancelled && Owner(s.peers, x.id.addr) == Some(i))
    && (forall a :: a in s.peers ==> s.peers[a] < |digests| && c.ident[digests[s.peers[a]]].addr == a)
  }

  /** The capacity is there to be used: any configured tokens with addresses of their own, at most
      as many as the limit, can all be served at once. */
  lemma {:induction false} EveryoneCanBeServed(c: S.Conf, digests: seq<Digest>, hello: S.Hello) returns (steps: seq<S.Step>)
    requires Apart(c, digests) && |digests| <= c.maxClients && GoodHello(hello)
    ensures AllServed(c, S.Exec(c, steps), digests)
  {
    if |digests| == 0 {
      steps := [];
    } else {
      var n := |digests| - 1;
      var before := EveryoneCanBeServed(c, digests[..n], hello);
      steps := OneMoreIsServed(c, before, digests, hello);
    }
  }

  lemma OneMoreIsServed(c: S.Conf, before: seq<S.Step>, digests: seq<Digest>, hello: S.Hello) returns (steps: seq<S.Step>)
    requires |digests| > 0 && Apart(c, digests) && |digests| <= c.maxClients && GoodHello(hello)
    requires AllServed(c, S.Exec(c, before), digests[..|digests| - 1])
    ensures AllServed(c, S.Exec(c, steps), digests)
  {
    var s := S.Exec(c, before);
    var n := |digests| - 1;
    var step := S.Connect(Some(digests[n]), Some(hello), true);
    HandshakesThatMakeSessions(c, s, Some(digests[n]), Some(hello), true);
    S.ExecOneMore(c, before, step);
    var t := S.Exec(c, before + [step]);
    assert t.peers == s.peers && t.loop == s.loop;
    assert c.ident[digests[n]].addr !in s.peers;
    steps := RegistersFresh(c, before + [step], n);
    MapGrows(s.peers, c.ident[digests[n]].addr, n);
    ServedGrows(c, s, S.Exec(c, steps), digests);
  }

  lemma ServedGrows(c: S.Conf, s: S.State, t: S.State, digests: seq<Digest>)
    requires |digests| > 0 && Apart(c, digests) && AllServed(c, s, digests[..|digests| - 1])
    requires var n := |digests| - 1; var id := c.ident[digests[n]];
             && |t.sessions| == n + 1 && t.sessions[..n] == s.sessions && t.loop == S.ReadingTun
             && t.sessions[n].id == id && t.sessions[n].pc == S.Checking && !t.sessions[n].cancelled
             && t.peers == s.peers[id.addr := n] && |t.peers| == n + 1
    ensures AllServed(c, t, digests)
  {
    var n := |digests| - 1;
    forall i: nat | i < |digests|
      ensures var x := t.sessions[i];
              x.id == c.ident[digests[i]] && x.pc == S.Checking && !x.cancelled && Owner(t.peers, x.id.addr) == Some(i)
    {
      if i < n {
        assert t.sessions[i] == s.sessions[i] && digests[..n][i] == digests[i];
        assert c.ident[digests[i]].addr != c.ident[digests[n]].addr;
      }
    }
  }

  lemma MapGrows<K, V>(m: map<K, V>, k: K, v: V)
    requires k !in m
    ensures |m[k := v]| == |m| + 1
  {
    assert m[k := v].Keys == m.Keys + {k};
    assert |m[k := v]| == |m[k := v].Keys|;
  }

  // ----- Messages -----

  /** Once round the loop: a session between messages, live and with its writer running, takes any
      message that passes the checks to the device and is between messages again. */
  lemma OnceRound(c: S.Conf, before: seq<S.Step>, i: nat, raw: seq<Byte>, p: Packet) returns (steps: seq<S.Step>)
    requires i < |S.Exec(c, before).sessions|
    requires var x := S.Exec(c, before).sessions[i];
             x.pc == S.Checking && !x.cancelled && !x.writer.Stopped? && S.ServerAccepts(raw, x.id.addr, c.mtu) == Some(p)
    ensures var s, t := S.Exec(c, before), S.Exec(c, steps); var x := s.sessions[i];
            t.sessions == s.sessions[i := x.(received := x.received + [raw])] && t.tun == s.tun + [(i, p)]
  {
    var x := S.Exec(c, before).sessions[i];
    steps := Receives(c, before, i, raw, p);
    steps := InjectsItsMessage(c, steps, i, raw, p);
    var y := x.(received := x.received + [raw]);
    assert S.Exec(c, steps).sessions[i] == y.(pc := S.Tallying(p));
    steps := Local(c, steps, i, S.Tally, y, None);
  }

  /** All these messages pass the checks of a session, and these are their packets. */
  ghost predicate AllPass(raws: seq<seq<Byte>>, packets: seq<Packet>, a: Addr, mtu: int) {
    |raws| == |packets| && forall k :: 0 <= k < |raws| ==> S.ServerAccepts(raws[k], a, mtu) == Some(packets[k])
  }

  /** For every handshake and every list of messages the server accepts, of any length, some run
      from the start has one session that received them all, injected all their packets in order,
      and is between messages, neither cancelled nor leaving. */
  lemma {:induction false} SessionsServeEveryMessage(c: S.Conf, digest: Digest, hello: S.Hello, raws: seq<seq<Byte>>, packets: seq<Packet>)
    returns (steps: seq<S.Step>)
    requires Servable(c, digest, hello) && AllPass(raws, packets, c.ident[digest].addr, c.mtu)
    ensures var s := S.Exec(c, steps);
            && |s.sessions| == 1 && s.sessions[0].id == c.ident[digest]
            && s.sessions[0].received == raws && WrittenBy(s.tun, 0) == packets && |s.tun| == |packets|
            && s.sessions[0].pc == S.Checking && !s.sessions[0].cancelled && s.sessions[0].writer == S.Idle
  {
    if |raws| == 0 {
      steps := Establish(c, digest, hello);
    } else {
      var n := |raws| - 1;
      var before := SessionsServeEveryMessage(c, digest, hello, raws[..n], packets[..n]);
      steps := ServesOneMore(c, before, raws[n], packets[n]);
      assert raws == raws[..n] + [raws[n]] && packets == packets[..n] + [packets[n]];
    }
  }

  lemma ServesOneMore(c: S.Conf, before: seq<S.Step>, raw: seq<Byte>, p: Packet) returns (steps: seq<S.Step>)
    requires var s := S.Exec(c, before);
             && |s.sessions| == 1 && s.sessions[0].pc == S.Checking && !s.sessions[0].cancelled && s.sessions[0].writer == S.Idle
             && S.ServerAccepts(raw, s.sessions[0].id.addr, c.mtu) == Some(p)
    ensures var s, t := S.Exec(c, before), S.Exec(c, steps);
            && t.sessions == [s.sessions[0].(received := s.sessions[0].received + [raw])]
            && WrittenBy(t.tun, 0) == WrittenBy(s.tun, 0) + [p] && |t.tun| == |s.tun| + 1
  {
    steps := OnceRound(c, before, 0, raw, p);
    WrittenByGrows(S.Exec(c, before).tun, (0, p), 0);
  }

  predicate InLoop(pc: S.HandlerPc) {
    pc.Checking? || pc.Reading? || pc.Validating? || pc.Injecting? || pc.Tallying?
  }

  /** The four ways out of the loop: a cancelled context or a stopped writer when it looks, a failed
      read, a refused message, and a failed device write. */
  predicate WaysOut(c: S.Conf, x: S.Session, h: S.HandlerStep) {
    match x.pc
    case Checking => h.Check? && (x.cancelled || x.writer.Stopped?)
    case Reading => h == S.Receive(None)
    case Validating(raw) => h.Validate? && S.ServerAccepts(raw, x.id.addr, c.mtu).None?
    case Injecting(_) => h == S.Inject(false)
    case _ => false
  }

  /** A session leaves the loop by one of these ways and by nothing else that happens anywhere. */
  lemma LeavesExactlyWhen(c: S.Conf, s: S.State, step: S.Step, i: nat)
    requires i < |s.sessions| && InLoop(s.sessions[i].pc)
    ensures i < |S.Next(c, s, step).sessions|
    ensures !InLoop(S.Next(c, s, step).sessions[i].pc) <==>
            step.Handler? && step.i == i && WaysOut(c, s.sessions[i], step.handler)
  {
    if step.Handler? && step.i == i {
      LocalLeavesExactlyWhen(c, s.sessions[i], s.counters, step.handler);
    } else {
      OnlyItsOwnStepsMoveAHandler(c, s, step, i);
    }
  }

  lemma LocalLeavesExactlyWhen(c: S.Conf, x: S.Session, k: S.Counters, h: S.HandlerStep)
    requires InLoop(x.pc)
    ensures !InLoop(S.LocalStep(c, x, k, h).session.pc) <==> WaysOut(c, x, h)
  {}

  /** A session is cancelled when its own request ends or CloseAll reaches it, when it is done, or
      when a registration cancels the session it displaced; by nothing else. */
  lemma CancelledExactlyWhen(c: S.Conf, s: S.State, step: S.Step, i: nat)
    requires i < |s.sessions| && !s.sessions[i].cancelled
    ensures i < |S.Next(c, s, step).sessions|
    ensures S.Next(c, s, step).sessions[i].cancelled <==>
            || step == S.ContextEnds(i)
            || (step == S.Handler(i, S.CancelSelf) && s.sessions[i].pc == S.Cancelling)
            || (step.Handler? && step.handler == S.RegisterEffect && step.i < |s.sessions|
                && s.sessions[step.i].pc == S.Locked(Some(i)))
  {
    match step
    case Handler(j, h) => if j < |s.sessions| { HandlerCancelsExactlyWhen(c, s, j, h, i); }
    case Writer(j, w) => if j < |s.sessions| { S.WriterFrame(s.sessions[j], w); }
    case Loop(l) => S.LoopFrame(s, l);
    case _ =>
  }

  lemma HandlerCancelsExactlyWhen(c: S.Conf, s: S.State, j: nat, h: S.HandlerStep, i: nat)
    requires i < |s.sessions| && j < |s.sessions| && !s.sessions[i].cancelled
    ensures i < |S.HandlerNext(c, s, j, h).sessions|
    ensures S.HandlerNext(c, s, j, h).sessions[i].cancelled <==>
            (j == i && h.CancelSelf? && s.sessions[i].pc == S.Cancelling)
            || (h.RegisterEffect? && s.sessions[j].pc == S.Locked(Some(i)))
  {
    S.HandlerFrame(c, s, j, h);
  }

  lemma StepFinishesCancelled(c: S.Conf, s: S.State, step: S.Step, i: nat)
    requires i < |s.sessions| && (s.sessions[i].pc.Finished? ==> s.sessions[i].cancelled)
    ensures var t := S.Next(c, s, step); i < |t.sessions| && (t.sessions[i].pc.Finished? ==> t.sessions[i].cancelled)
  {
    if step.Handler? && step.i == i {
      if S.TouchesRegistry(step.handler) {
        S.RegistryFrame(c, s, i, step.handler);
      }
    } else {
      OnlyItsOwnStepsMoveAHandler(c, s, step, i);
      Negotiation.StepKeepsTerms(c, s, step, i);
      if !s.sessions[i].cancelled {
        CancelledExactlyWhen(c, s, step, i);
      } else {
        StepKeepsFrames(c, s, step, i);
      }
    }
  }

  /** A handler that has returned has cancelled its session's context, so its write loop winds down
      too. */
  lemma {:induction false} FinishedMeansCancelled(c: S.Conf, steps: seq<S.Step>, i: nat)
    requires i < |S.Exec(c, steps).sessions|
    ensures S.Exec(c, steps).sessions[i].pc.Finished? ==> S.Exec(c, steps).sessions[i].cancelled
  {
    var n := |steps| - 1;
    var s := S.Exec(c, steps[..n]);
    if i < |s.sessions| {
      FinishedMeansCancelled(c, steps[..n], i);
      StepFinishesCancelled(c, s, steps[n], i);
    } else {
      Negotiation.OnlyHandshakesAddSessions(c, s, steps[n]);
    }
  }

  // ----- Packets to a session -----

  /** All these packets are for an address. */
  ghost predicate AllFor(packets: seq<Packet>, a: Addr) {
    forall k :: 0 <= k < |packets| ==> For(packets[k], a)
  }

  /** For every handshake and every list of packets for its address, of any length, some run from
      the start has one session that carried them all, in order, and is still live. */
  lemma {:induction false} SessionsCarryEveryPacket(c: S.Conf, digest: Digest, hello: S.Hello, packets: seq<Packet>)
    returns (steps: seq<S.Step>)
    requires Servable(c, digest, hello) && AllFor(packets, c.ident[digest].addr)
    ensures var s := S.Exec(c, steps);
            && |s.sessions| == 1 && Payloads(s.sessions[0].frames) == packets && |s.outcomes| == |packets|
            && s.sessions[0] == Established(c, digest, hello).sessions[0].(frames := s.sessions[0].frames)
            && s.peers == map[c.ident[digest].addr := 0] && s.loop == S.ReadingTun
  {
    if |packets| == 0 {
      steps := Establish(c, digest, hello);
    } else {
      var n := |packets| - 1;
      var before := SessionsCarryEveryPacket(c, digest, hello, packets[..n]);
      steps := CarriesOneMore(c, before, packets[n]);
      assert packets == packets[..n] + [packets[n]];
    }
  }

  lemma CarriesOneMore(c: S.Conf, before: seq<S.Step>, p: Packet) returns (steps: seq<S.Step>)
    requires var s := S.Exec(c, before);
             && |s.sessions| == 1 && s.loop == S.ReadingTun
             && var x := s.sessions[0];
             && x.writer == S.Idle && !x.cancelled && x.queue == [] && s.peers == map[x.id.addr := 0] && For(p, x.id.addr)
    ensures var s, t := S.Exec(c, before), S.Exec(c, steps);
            && |t.sessions| == 1 && t.sessions[0] == s.sessions[0].(frames := t.sessions[0].frames)
            && Payloads(t.sessions[0].frames) == Payloads(s.sessions[0].frames) + [p]
            && |t.outcomes| == |s.outcomes| + 1 && t.peers == s.peers && t.loop == S.ReadingTun
  {
    var raw := FrameOf(p);
    steps := Carries(c, before, 0, p, raw);
    PayloadsGrow(S.Exec(c, before).sessions[0].frames, raw);
  }

  /** A device read of a packet for a session with room puts it behind the others. */
  lemma Queues(c: S.Conf, before: seq<S.Step>, i: nat, p: Packet) returns (steps: seq<S.Step>)
    requires i < |S.Exec(c, before).sessions| && S.Exec(c, before).loop == S.ReadingTun
    requires var s := S.Exec(c, before); var a := s.sessions[i].id.addr;
             a in s.peers && s.peers[a] == i && For(p, a) && |s.sessions[i].queue| < 256
    ensures var s, t := S.Exec(c, before), S.Exec(c, steps); var x := s.sessions[i];
            && t.sessions == s.sessions[i := x.(queue := x.queue + [p])] && t.outcomes == s.outcomes + [S.Enqueued(p, i)]
            && t.peers == s.peers && t.loop == S.ReadingTun
  {
    var s := S.Exec(c, before);
    var read := ReadStep(c, s, p);
    S.ExecOneMore(c, before, read);
    steps := before + [read];
    S.ExecOneMore(c, steps, S.Loop(S.Lookup));
    steps := steps + [S.Loop(S.Lookup)];
    assert S.Exec(c, steps).loop == S.Sending(i, p) && S.Exec(c, steps).sessions == s.sessions;
    S.ExecOneMore(c, steps, S.Loop(S.Send));
    steps := steps + [S.Loop(S.Send)];
  }

  /** Any list of up to 256 packets for a session's address can be waiting for it at once. */
  lemma {:induction false} QueuesFill(c: S.Conf, digest: Digest, hello: S.Hello, packets: seq<Packet>) returns (steps: seq<S.Step>)
    requires Servable(c, digest, hello) && AllFor(packets, c.ident[digest].addr) && |packets| <= 256
    ensures var s := S.Exec(c, steps);
            && |s.sessions| == 1 && s.sessions[0].queue == packets && s.sessions[0].id == c.ident[digest]
            && s.peers == map[c.ident[digest].addr := 0] && s.loop == S.ReadingTun
  {
    if |packets| == 0 {
      steps := Establish(c, digest, hello);
    } else {
      var n := |packets| - 1;
      var before := QueuesFill(c, digest, hello, packets[..n]);
      steps := Queues(c, before, 0, packets[n]);
      assert packets == packets[..n] + [packets[n]];
    }
  }

  /** The bound is reached: 256 packets wait. */
  lemma QueueBoundIsReached(c: S.Conf, digest: Digest, hello: S.Hello, p: Packet) returns (steps: seq<S.Step>)
    requires Servable(c, digest, hello) && For(p, c.ident[digest].addr)
    ensures |S.Exec(c, steps).sessions| == 1 && |S.Exec(c, steps).sessions[0].queue| == 256
  {
    steps := QueuesFill(c, digest, hello, seq(256, _ => p));
  }

  // ----- The packet loop -----

  /** A device read goes on to the registry as p exactly when its count is plausible and p is the
      datagram in exactly that many bytes; and every other read is counted invalid and followed by
      the next. */
  lemma ReadsExactlyDatagrams(c: S.Conf, s: S.State, n: int, buffer: seq<Byte>, p: Packet)
    requires s.loop == S.ReadingTun && |buffer| == 65535
    ensures var t := S.Next(c, s, S.Loop(S.TunRead(n, buffer)));
            t.loop == S.LookingUp(p) <==>
            0 < n <= |buffer| && p == buffer[..n] && exists d: Datagram :: d.Valid() && d.Serialize() == p
    ensures var t := S.Next(c, s, S.Loop(S.TunRead(n, buffer)));
            !t.loop.LookingUp? ==> t.loop == S.ReadingTun && t.counters.invalid == s.counters.invalid + 1
  {
    if 0 < n <= |buffer| {
      AcceptsExactlyDatagrams(buffer[..n]);
    }
  }

  /** In every run a packet looked up goes to the session that registered last at its destination and
      has not unregistered, and is dropped exactly when there is none; a packet sent is queued
      exactly when fewer than 256 wait, and dropped otherwise. Either way the loop reads on. */
  lemma DispatchIsExact(c: S.Conf, steps: seq<S.Step>, p: Packet, i: nat)
    requires S.Exec(c, steps).loop == S.LookingUp(p) && WellFormed(p)
    ensures var s := S.Exec(c, steps); var t := S.Next(c, s, S.Loop(S.Lookup));
            && (t.loop == S.Sending(i, p) <==> Holds(s.history, Destination(p), i))
            && (t.loop == S.ReadingTun <==> forall j: nat :: !Holds(s.history, Destination(p), j))
            && (t.loop == S.ReadingTun ==> t.counters.dropped == s.counters.dropped + 1)
  {
    O.LatestRegistrationWins(c, steps);
    var s := S.Exec(c, steps);
    assert Owner(s.peers, Destination(p)) == Some(i) <==> Holds(s.history, Destination(p), i);
    if Destination(p) in s.peers {
      assert Owner(s.peers, Destination(p)) == Some(s.peers[Destination(p)]);
    }
  }

  lemma SendIsExact(c: S.Conf, s: S.State, i: nat, p: Packet)
    requires s.loop == S.Sending(i, p) && i < |s.sessions|
    ensures var t := S.Next(c, s, S.Loop(S.Send)); var x := s.sessions[i];
            && t.loop == S.ReadingTun
            && t.sessions == (if |x.queue| < 256 then s.sessions[i := x.(queue := x.queue + [p])] else s.sessions)
            && t.counters.dropped == s.counters.dropped + (if |x.queue| < 256 then 0 else 1)
  {}

  /** The loop ends with the device and with nothing else. */
  lemma LoopEndsOnlyWithTheDevice(c: S.Conf, s: S.State, step: S.Step)
    requires !s.loop.LoopEnded?
    ensures S.Next(c, s, step).loop.LoopEnded? <==> step == S.Loop(S.TunFails) && s.loop == S.ReadingTun
  {
    match step
    case Handler(i, h) => if i < |s.sessions| { S.HandlerFrame(c, s, i, h); }
    case _ =>
  }

  // ----- Writers -----

  /** In every run a write loop stops exactly when its context is done or a ping failed while it
      waits, or when it writes and the connection fails or the session is cancelled. */
  lemma WriterStopsExactlyWhen(c: S.Conf, steps: seq<S.Step>, i: nat, w: S.WriterStep)
    requires i < |S.Exec(c, steps).sessions| && !S.Exec(c, steps).sessions[i].writer.Stopped?
    ensures var x := S.Exec(c, steps).sessions[i]; var y := S.WriterStepped(x, w);
            y.writer.Stopped? <==>
            (w.Stop? && x.writer.Idle?) || (w.Write? && x.writer.Holding? && (x.cancelled || !w.ok))
  {
    var x := S.Exec(c, steps).sessions[i];
    if x.writer.Holding? {
      WriterEncodeNeverFails(c, steps, i, x.writer.packet);
    }
  }

  /** A waiting writer takes the packet at the head of the queue, and a live session's write sends
      exactly its frame. */
  lemma WritesTheNext(x: S.Session, p: Packet, raw: seq<Byte>)
    requires Encoded(TYPE_PACKET, 0, p) == Success(raw)
    ensures x.writer == S.Idle && x.queue != [] && x.queue[0] == p ==>
              S.WriterStepped(x, S.Take) == x.(writer := S.Holding(p), queue := x.queue[1..])
    ensures x.writer == S.Holding(p) && !x.cancelled ==>
              S.WriterStepped(x, S.Write(true)) == x.(writer := S.Idle, frames := x.frames + [raw])
  {}

  lemma StepKeepsFrames(c: S.Conf, s: S.State, step: S.Step, i: nat)
    requires i < |s.sessions| && s.sessions[i].cancelled
    ensures var t := S.Next(c, s, step);
            i < |t.sessions| && t.sessions[i].cancelled && t.sessions[i].frames == s.sessions[i].frames
  {
    match step
    case Handler(j, h) => if j < |s.sessions| { S.HandlerFrame(c, s, j, h); }
    case Loop(l) => S.LoopFrame(s, l);
    case _ =>
  }

  /** Once cancelled, a session sends nothing more. */
  lemma {:induction false} CancelledSendsNothingMore(c: S.Conf, steps: seq<S.Step>, more: seq<S.Step>, i: nat)
    requires i < |S.Exec(c, steps).sessions| && S.Exec(c, steps).sessions[i].cancelled
    ensures var s, t := S.Exec(c, steps), S.Exec(c, steps + more);
            i < |t.sessions| && t.sessions[i].cancelled && t.sessions[i].frames == s.sessions[i].frames
  {
    if |more| == 0 {
      assert steps + more == steps;
    } else {
      var init := more[..|more| - 1];
      CancelledSendsNothingMore(c, steps, init, i);
      assert steps + more == (steps + init) + [more[|more| - 1]];
      S.ExecOneMore(c, steps + init, more[|more| - 1]);
      StepKeepsFrames(c, S.Exec(c, steps + init), more[|more| - 1], i);
    }
  }
}
