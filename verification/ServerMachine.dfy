/** The server as interleaved steps (internal/server/server.go, internal/core/hub.go).

    One step is what a goroutine does between two points where another goroutine can run: a
    critical section of the hub, one side effect after its unlock, one channel operation, one
    connection read or write, one device read or write. A run is any sequence of steps; a step
    that is not enabled changes nothing, so every sequence of steps is a run. */
module ServerMachine {
  import opened Prelude
  import opened Ipv4
  import opened HubSpec
  import opened Frame

  /** server.go:203 */
  const QUEUE_CAPACITY: nat := 256

  datatype Identity = Identity(name: string, addr: Addr)

  /** What is fixed when the server starts. */
  datatype Conf = Conf(ident: map<Digest, Identity>, maxClients: int, mtu: int)

  datatype Hello = Hello(clientName: string, sessionId: string, mtu: int)
  {
    /** server.go:180 */
    predicate Acceptable() {
      sessionId != "" && |sessionId| <= 128 && 576 <= mtu <= 1500
    }
  }

  /** Where the tunnel handler of one session stands. */
  datatype HandlerPc =
    | Registering                        // about to call Register
    | Locked(displaced: Option<nat>)     // hub.go:38: unlocked, the displaced peer or the gauge still to do
    | Accepting                          // hub.go:44
    | Checking                           // server.go:215
    | Reading                            // server.go:222
    | Validating(raw: seq<Byte>)         // server.go:228
    | Injecting(payload: Packet)         // server.go:238
    | Tallying(payload: Packet)          // server.go:244
    | Unregistering                      // server.go:208, deferred
    | Cancelling                         // server.go:202, deferred
    | Finished

  /** Where its write loop stands. A stopped writer may have lost the packet in its hand. */
  datatype WriterPc = NotStarted | Idle | Holding(packet: Packet) | Stopped(lost: Option<Packet>)

  datatype Session = Session(
    id: Identity,
    mtu: int,                            // negotiated in the WELCOME
    pc: HandlerPc,
    cancelled: bool,                     // peerCtx is done
    rejected: bool,                      // one of the Invalid branches ended it
    queue: seq<Packet>,                  // peer.Send
    writer: WriterPc,
    frames: seq<seq<Byte>>,              // successful connection writes
    received: seq<seq<Byte>>)            // successful connection reads

  datatype LoopPc = ReadingTun | LookingUp(packet: Packet) | Sending(target: nat, packet: Packet) | LoopEnded

  /** What became of one successful device read. */
  datatype Outcome =
    | BadCount
    | Malformed(packet: Packet)
    | NoPeer(packet: Packet)
    | QueueFull(packet: Packet, peer: nat)
    | Enqueued(packet: Packet, peer: nat)

  datatype Counters = Counters(
    active: int, accepted: int, authRejected: int,
    packetsFromTun: int, packetsToTun: int, bytesFromTun: int, bytesToTun: int,
    dropped: int, invalid: int)

  datatype State = State(
    sessions: seq<Session>,              // every session ever accepted; the position is its identity
    peers: map<Addr, nat>,               // hub.peers
    loop: LoopPc,
    counters: Counters,
    outcomes: seq<Outcome>,              // finished packetLoop iterations
    tun: seq<(nat, Packet)>,             // device writes, with the session that made them
    history: seq<Event<nat>>)            // critical sections in lock order

  const INITIAL := State([], map[], ReadingTun, Counters(0, 0, 0, 0, 0, 0, 0, 0, 0), [], [], [])

  datatype HandlerStep =
    | RegisterLocked
    | RegisterEffect
    | RegisterAccept
    | Check
    | Receive(message: Option<seq<Byte>>)   // None: the read failed, or the message is not binary
    | Validate
    | Inject(ok: bool)
    | Tally
    | Unregister
    | CancelSelf

  datatype WriterStep = Take | Write(ok: bool) | Stop   // Stop: the context is done, or a ping failed

  datatype LoopStep = TunRead(n: int, buffer: seq<Byte>) | TunFails | Lookup | Send

  datatype Step =
    | Connect(digest: Option<Digest>, hello: Option<Hello>, welcomed: bool)
    | ContextEnds(i: nat)                   // the request ends, or CloseAll reaches this peer
    | Handler(i: nat, handler: HandlerStep)
    | Writer(i: nat, writer: WriterStep)
    | Loop(loop: LoopStep)

  /** The packet of a message that passes every check of server.go:228-237. */
  function ServerAccepts(raw: seq<Byte>, addr: Addr, mtu: int): Option<Packet> {
    match Decoded(raw)
    case Failure(_) => None
    case Success(f) =>
      if f.typ != TYPE_PACKET then None
      else
        match SourceDestination(f.payload)
        case Failure(_) => None
        case Success((src, _)) => if src != addr || |f.payload| > mtu then None else Some(f.payload)
  }

  function Put(s: State, i: nat, x: Session): State
    requires i < |s.sessions|
  {
    s.(sessions := s.sessions[i := x])
  }

  function Goto(s: State, i: nat, pc: HandlerPc): State
    requires i < |s.sessions|
  {
    Put(s, i, s.sessions[i].(pc := pc))
  }

  /** The session of an accepted handshake; its WELCOME names the same address and MTU. */
  function NewSession(c: Conf, digest: Digest, hello: Hello): Session
    requires digest in c.ident
  {
    Session(c.ident[digest], Min(c.mtu, hello.mtu), Registering, false, false, [], NotStarted, [], [])
  }

  /** authenticate and the handshake, up to the peer's creation (server.go:149-203). */
  function Connected(c: Conf, s: State, digest: Option<Digest>, hello: Option<Hello>, welcomed: bool): State {
    if digest.None? || digest.value !in c.ident then
      s.(counters := s.counters.(authRejected := s.counters.authRejected + 1))
    else if hello.None? || !hello.value.Acceptable() || !welcomed then s
    else s.(sessions := s.sessions + [NewSession(c, digest.value, hello.value)])
  }

  function LockedRegister(c: Conf, s: State, i: nat): State
    requires i < |s.sessions|
  {
    var a := s.sessions[i].id.addr;
    match Install(s.peers, c.maxClients, a, i)
    case None => Goto(s, i, Cancelling)
    case Some(peers) =>
      Goto(s.(peers := peers, history := s.history + [Registered(a, i)]), i, Locked(Owner(s.peers, a)))
  }

  function CancelSession(s: State, i: nat): State
    requires i < |s.sessions|
  {
    Put(s, i, s.sessions[i].(cancelled := true))
  }

  /** hub.go:39-43 */
  function FinishRegister(s: State, i: nat, displaced: Option<nat>): State
    requires i < |s.sessions|
  {
    match displaced
    case None => Goto(s.(counters := s.counters.(active := s.counters.active + 1)), i, Accepting)
    case Some(o) => Goto(if o < |s.sessions| then CancelSession(s, o) else s, i, Accepting)
  }

  function LockedUnregister(s: State, i: nat): State
    requires i < |s.sessions|
  {
    var a := s.sessions[i].id.addr;
    var c := s.counters;
    Goto(s.(peers := Evict(s.peers, a, i),
            counters := if Owner(s.peers, a) == Some(i) then c.(active := c.active - 1) else c,
            history := s.history + [Unregistered(a, i)]),
         i, Cancelling)
  }

  /** writeLoop with a packet in hand (server.go:257-266). */
  function Written(x: Session, packet: Packet, ok: bool): Session {
    match Encoded(TYPE_PACKET, 0, packet)
    case Failure(_) => x.(writer := Stopped(Some(packet)))
    case Success(frame) =>
      if ok && !x.cancelled then x.(writer := Idle, frames := x.frames + [frame])
      else x.(writer := Stopped(Some(packet)))
  }

  /** One packetLoop read (server.go:126-143). */
  function ReadFromTun(s: State, n: int, buffer: seq<Byte>): State {
    var c := s.counters;
    if n <= 0 || n > |buffer| then
      s.(outcomes := s.outcomes + [BadCount], counters := c.(invalid := c.invalid + 1))
    else
      var packet := buffer[..n];
      if !WellFormed(packet) then
        s.(outcomes := s.outcomes + [Malformed(packet)], counters := c.(invalid := c.invalid + 1))
      else
        s.(loop := LookingUp(packet),
           counters := c.(packetsFromTun := c.packetsFromTun + 1, bytesFromTun := c.bytesFromTun + n))
  }

  function Drop(s: State, o: Outcome): State {
    s.(loop := ReadingTun, outcomes := s.outcomes + [o], counters := s.counters.(dropped := s.counters.dropped + 1))
  }

  function LookedUp(s: State, packet: Packet): State
    requires WellFormed(packet)
  {
    match Owner(s.peers, Destination(packet))
    case None => Drop(s, NoPeer(packet))
    case Some(p) => s.(loop := Sending(p, packet))
  }

  function Sent(s: State, t: nat, packet: Packet): State
    requires t < |s.sessions|
  {
    match Offer(s.sessions[t].queue, QUEUE_CAPACITY, packet)
    case None => Drop(s, QueueFull(packet, t))
    case Some(q) =>
      Put(s, t, s.sessions[t].(queue := q)).(loop := ReadingTun, outcomes := s.outcomes + [Enqueued(packet, t)])
  }

  /** The three handler steps that reach beyond the session: Register under the lock, its side
      effect, and Unregister. */
  predicate TouchesRegistry(h: HandlerStep) { h.RegisterLocked? || h.RegisterEffect? || h.Unregister? }

  function RegistryNext(c: Conf, s: State, i: nat, h: HandlerStep): State
    requires i < |s.sessions|
  {
    match (h, s.sessions[i].pc)
    case (RegisterLocked, Registering) => LockedRegister(c, s, i)
    case (RegisterEffect, Locked(displaced)) => FinishRegister(s, i, displaced)
    case (Unregister, Unregistering) => LockedUnregister(s, i)
    case _ => s
  }

  /** What any other handler step does: to its session, to the device log and to the counters. */
  datatype Effect = Effect(session: Session, written: Option<Packet>, counters: Counters)

  function LocalStep(c: Conf, x: Session, k: Counters, h: HandlerStep): Effect {
    match (h, x.pc)
    case (RegisterAccept, Accepting) =>
      Effect(x.(pc := Checking, writer := Idle), None, k.(accepted := k.accepted + 1))
    case (Check, Checking) =>
      Effect(x.(pc := if x.cancelled || x.writer.Stopped? then Unregistering else Reading), None, k)
    case (Receive(None), Reading) => Effect(x.(pc := Unregistering), None, k)
    case (Receive(Some(raw)), Reading) => Effect(x.(pc := Validating(raw), received := x.received + [raw]), None, k)
    case (Validate, Validating(raw)) =>
      (match ServerAccepts(raw, x.id.addr, c.mtu)
       case Some(payload) => Effect(x.(pc := Injecting(payload)), None, k)
       case None => Effect(x.(pc := Unregistering, rejected := true), None, k.(invalid := k.invalid + 1)))
    case (Inject(ok), Injecting(payload)) =>
      if ok then Effect(x.(pc := Tallying(payload)), Some(payload), k) else Effect(x.(pc := Unregistering), None, k)
    case (Tally, Tallying(payload)) =>
      Effect(x.(pc := Checking), None,
             k.(packetsToTun := k.packetsToTun + 1, bytesToTun := k.bytesToTun + |payload|))
    case (CancelSelf, Cancelling) => Effect(x.(pc := Finished, cancelled := true), None, k)
    case _ => Effect(x, None, k)
  }

  function Log(tun: seq<(nat, Packet)>, i: nat, written: Option<Packet>): seq<(nat, Packet)> {
    if written.Some? then tun + [(i, written.value)] else tun
  }

  /** A step of the handler of session i. */
  function HandlerNext(c: Conf, s: State, i: nat, h: HandlerStep): State
    requires i < |s.sessions|
  {
    if TouchesRegistry(h) then RegistryNext(c, s, i, h)
    else
      var e := LocalStep(c, s.sessions[i], s.counters, h);
      Put(s, i, e.session).(tun := Log(s.tun, i, e.written), counters := e.counters)
  }

  function WriterStepped(x: Session, w: WriterStep): Session {
    match (w, x.writer)
    case (Take, Idle) => if x.queue == [] then x else x.(writer := Holding(x.queue[0]), queue := x.queue[1..])
    case (Write(ok), Holding(packet)) => Written(x, packet, ok)
    case (Stop, Idle) => x.(writer := Stopped(None))
    case _ => x
  }

  /** A step of the write loop of session i. */
  function WriterNext(s: State, i: nat, w: WriterStep): State
    requires i < |s.sessions|
  {
    Put(s, i, WriterStepped(s.sessions[i], w))
  }

  /** A step of packetLoop. */
  function LoopNext(s: State, step: LoopStep): State {
    match (step, s.loop)
    case (TunRead(n, buffer), ReadingTun) => if |buffer| == MAX_PACKET_SIZE then ReadFromTun(s, n, buffer) else s
    case (TunFails, ReadingTun) => s.(loop := LoopEnded)
    case (Lookup, LookingUp(packet)) => if WellFormed(packet) then LookedUp(s, packet) else s
    case (Send, Sending(t, packet)) => if t < |s.sessions| then Sent(s, t, packet) else s
    case _ => s
  }

  function Next(c: Conf, s: State, step: Step): State {
    match step
    case Connect(digest, hello, welcomed) => Connected(c, s, digest, hello, welcomed)
    case ContextEnds(i) => if i < |s.sessions| then CancelSession(s, i) else s
    case Handler(i, h) => if i < |s.sessions| then HandlerNext(c, s, i, h) else s
    case Writer(i, w) => if i < |s.sessions| then WriterNext(s, i, w) else s
    case Loop(l) => LoopNext(s, l)
  }

  /** The state a run reaches. */
  ghost function Exec(c: Conf, steps: seq<Step>): State {
    if |steps| == 0 then INITIAL
    else Next(c, Exec(c, steps[..|steps| - 1]), steps[|steps| - 1])
  }

  /** A handler's step moves no downlink packet, leaves every identity, and touches another
      session at most by cancelling it. */
  ghost predicate OnlyHandler(s: State, t: State, i: nat) {
    && t.outcomes == s.outcomes && t.loop == s.loop && |t.sessions| == |s.sessions|
    && (forall k: nat :: k < |s.sessions| && k != i ==>
          t.sessions[k] == s.sessions[k] || t.sessions[k] == s.sessions[k].(cancelled := true))
    && (i < |s.sessions| ==>
          var x, y := s.sessions[i], t.sessions[i];
          y.id == x.id && y.queue == x.queue && y.frames == x.frames && (x.cancelled ==> y.cancelled))
  }

  /** A registry step moves its own session along the protocol only. */
  predicate MovedOn(x: Session, y: Session) {
    y == x || (y == x.(pc := y.pc, cancelled := y.cancelled) && (y.pc.Locked? || y.pc.Accepting? || y.pc.Cancelling?))
  }

  lemma LockedFrame(c: Conf, s: State, i: nat)
    requires i < |s.sessions|
    ensures var t := LockedRegister(c, s, i); OnlyHandler(s, t, i) && t.tun == s.tun && MovedOn(s.sessions[i], t.sessions[i])
    ensures var t := LockedUnregister(s, i); OnlyHandler(s, t, i) && t.tun == s.tun && MovedOn(s.sessions[i], t.sessions[i])
  {}

  lemma EffectFrame(s: State, i: nat, displaced: Option<nat>)
    requires i < |s.sessions|
    ensures var t := FinishRegister(s, i, displaced);
            OnlyHandler(s, t, i) && t.tun == s.tun && MovedOn(s.sessions[i], t.sessions[i])
  {}

  lemma RegistryFrame(c: Conf, s: State, i: nat, h: HandlerStep)
    requires i < |s.sessions| && TouchesRegistry(h)
    ensures var t := RegistryNext(c, s, i, h);
            OnlyHandler(s, t, i) && t.tun == s.tun && MovedOn(s.sessions[i], t.sessions[i])
  {
    LockedFrame(c, s, i);
    match s.sessions[i].pc
    case Locked(displaced) => EffectFrame(s, i, displaced);
    case _ =>
  }

  lemma LocalFrame(c: Conf, x: Session, k: Counters, h: HandlerStep)
    ensures var y := LocalStep(c, x, k, h).session;
            y.id == x.id && y.queue == x.queue && y.frames == x.frames && (x.cancelled ==> y.cancelled)
  {}

  lemma HandlerFrame(c: Conf, s: State, i: nat, h: HandlerStep)
    requires i < |s.sessions|
    ensures OnlyHandler(s, HandlerNext(c, s, i, h), i)
  {
    if TouchesRegistry(h) {
      RegistryFrame(c, s, i, h);
    } else {
      LocalFrame(c, s.sessions[i], s.counters, h);
    }
  }

  /** A write loop's step touches only its own session's queue, hand and frames. */
  lemma WriterFrame(x: Session, w: WriterStep)
    ensures var y := WriterStepped(x, w);
            y == x.(queue := y.queue, writer := y.writer, frames := y.frames)
  {}

  /** packetLoop touches sessions only by queueing a packet. */
  lemma LoopFrame(s: State, l: LoopStep)
    ensures var t := LoopNext(s, l);
            && t.peers == s.peers && t.history == s.history && t.tun == s.tun && |t.sessions| == |s.sessions|
            && forall k: nat :: k < |s.sessions| ==> t.sessions[k] == s.sessions[k].(queue := t.sessions[k].queue)
  {}

  lemma ExecOneMore(c: Conf, steps: seq<Step>, step: Step)
    ensures Exec(c, steps + [step]) == Next(c, Exec(c, steps), step)
  {
    assert (steps + [step])[..|steps|] == steps;
  }
}
