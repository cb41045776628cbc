/** A client's packet plumbing as interleaved steps (internal/client/client.go:201-292): one
    reader that outlives every session, a bounded queue that outlives them too, and for each
    session a writer and a receiver. A run begins when the reader is spawned; it is any
    sequence of steps, and a step that is not enabled changes nothing. */
module ClientMachine {
  import opened Prelude
  import opened Ipv4
  import opened Frame

  /** client.go:50 */
  const OUTBOUND_CAPACITY: nat := 512

  /** What is fixed at the first connection. */
  datatype Conf = Conf(address: Addr, mtu: int)

  datatype ReaderPc = Reading | Putting(packet: Packet) | Returned

  /** The writer of a session; n is the position of its packet among all those put. */
  datatype WriterPc = Idle | Holding(n: nat, packet: Packet) | Exited(lost: Option<nat>)

  datatype ReceiverPc = Receiving | Injecting(payload: Packet) | Left

  datatype Session = Session(
    cancelled: bool,                     // sessionCtx, cancelled by runSession
    writer: WriterPc,
    receiver: ReceiverPc,
    received: seq<seq<Byte>>)            // successful connection reads

  /** One successful connection write. */
  datatype Sent = Sent(session: nat, n: nat, frame: seq<Byte>)

  datatype State = State(
    done: bool,                          // the run's context
    reader: ReaderPc,
    put: seq<Packet>,                    // every packet ever put on the queue
    taken: nat,                          // how many of them have left the queue
    queue: seq<Packet>,                  // outbound
    sessions: seq<Session>,              // every session ever started, in order
    running: bool,                       // runSession has not returned
    wire: seq<Sent>,                     // connection writes, of all sessions
    device: seq<(nat, Packet)>)          // device writes, with the session that made them

  const INITIAL := State(false, Reading, [], 0, [], [], false, [], [])

  datatype WriterStep = Take | Write(ok: bool) | Stop   // Stop: the context is done, or a ping failed

  datatype ReceiverStep = Receive(message: Option<seq<Byte>>) | Inject(ok: bool)

  datatype ReaderStep = Read(n: nat, buffer: seq<Byte>) | ReadFails | PutPacket | GiveUp

  datatype Step =
    | ContextEnds
    | Start
    | End
    | Reader(reader: ReaderStep)
    | Writer(i: nat, writer: WriterStep)
    | Receiver(i: nat, receiver: ReceiverStep)

  /** The packet of a device read that readTun puts (client.go:208-214). */
  function Readable(c: Conf, n: nat, buffer: seq<Byte>): Option<Packet> {
    if n > c.mtu || n > |buffer| then None
    else
      match SourceDestination(buffer[..n])
      case Failure(_) => None
      case Success((src, _)) => if src != c.address then None else Some(buffer[..n])
  }

  /** The packet of a message that passes every check of client.go:270-281. */
  function ClientAccepts(c: Conf, raw: seq<Byte>): Option<Packet> {
    match Decoded(raw)
    case Failure(_) => None
    case Success(f) =>
      if f.typ != TYPE_PACKET || |f.payload| > c.mtu then None
      else
        match SourceDestination(f.payload)
        case Failure(_) => None
        case Success((_, dst)) => if dst != c.address then None else Some(f.payload)
  }

  function ReaderNext(c: Conf, s: State, r: ReaderStep): State {
    match (r, s.reader)
    case (Read(n, buffer), Reading) =>
      (match Readable(c, n, buffer)
       case Some(p) => s.(reader := Putting(p))
       case None => s)
    case (ReadFails, Reading) => s.(reader := Returned)
    case (PutPacket, Putting(p)) =>
      if |s.queue| < OUTBOUND_CAPACITY then s.(reader := Reading, put := s.put + [p], queue := s.queue + [p]) else s
    case (GiveUp, Putting(_)) => if s.done then s.(reader := Returned) else s
    case _ => s
  }

  function SetWriter(s: State, i: nat, w: WriterPc): State
    requires i < |s.sessions|
  {
    s.(sessions := s.sessions[i := s.sessions[i].(writer := w)])
  }

  /** A writer with a packet in hand (client.go:237-248). */
  function Written(s: State, i: nat, n: nat, packet: Packet, ok: bool): State
    requires i < |s.sessions|
  {
    match Encoded(TYPE_PACKET, 0, packet)
    case Failure(_) => SetWriter(s, i, Exited(Some(n)))
    case Success(frame) =>
      if ok && !s.sessions[i].cancelled && !s.done then SetWriter(s, i, Idle).(wire := s.wire + [Sent(i, n, frame)])
      else SetWriter(s, i, Exited(Some(n)))
  }

  /** A step of the writer of session i. The select may take a packet even when its context is
      done. */
  function WriterNext(s: State, i: nat, w: WriterStep): State
    requires i < |s.sessions|
  {
    match (w, s.sessions[i].writer)
    case (Take, Idle) =>
      if s.queue == [] then s
      else SetWriter(s, i, Holding(s.taken, s.queue[0])).(taken := s.taken + 1, queue := s.queue[1..])
    case (Write(ok), Holding(n, packet)) => Written(s, i, n, packet, ok)
    case (Stop, Idle) => SetWriter(s, i, Exited(None))
    case _ => s
  }

  /** The effect of a receiver's step on its session, and what it writes to the device. */
  function Received(c: Conf, x: Session, done: bool, r: ReceiverStep): (Session, Option<Packet>) {
    match (r, x.receiver)
    case (Receive(None), Receiving) => (x.(receiver := Left), None)
    case (Receive(Some(raw)), Receiving) =>
      if x.cancelled || done then (x.(receiver := Left), None)
      else
        (match ClientAccepts(c, raw)
         case Some(p) => (x.(receiver := Injecting(p), received := x.received + [raw]), None)
         case None => (x.(receiver := Left, received := x.received + [raw]), None))
    case (Inject(ok), Injecting(p)) =>
      if ok then (x.(receiver := Receiving), Some(p)) else (x.(receiver := Left), None)
    case _ => (x, None)
  }

  function ReceiverNext(c: Conf, s: State, i: nat, r: ReceiverStep): State
    requires i < |s.sessions|
  {
    var (x, written) := Received(c, s.sessions[i], s.done, r);
    s.(sessions := s.sessions[i := x], device := if written.Some? then s.device + [(i, written.value)] else s.device)
  }

  /** runSession starts on a fresh connection, once the previous one has returned; the context
      may have ended since the dial (client.go:92-110). */
  function Started(s: State): State {
    if s.running then s
    else s.(running := true, sessions := s.sessions + [Session(false, Idle, Receiving, [])])
  }

  /** The first goroutine to exit ends its session; the other is cancelled. */
  function Ended(s: State): State {
    if !s.running || s.sessions == [] then s
    else
      var i := |s.sessions| - 1;
      var x := s.sessions[i];
      if x.writer.Exited? || x.receiver.Left? then
        s.(running := false, sessions := s.sessions[i := x.(cancelled := true)])
      else s
  }

  function Next(c: Conf, s: State, step: Step): State {
    match step
    case ContextEnds => s.(done := true)
    case Start => Started(s)
    case End => Ended(s)
    case Reader(r) => ReaderNext(c, s, r)
    case Writer(i, w) => if i < |s.sessions| then WriterNext(s, i, w) else s
    case Receiver(i, r) => if i < |s.sessions| then ReceiverNext(c, s, i, r) else s
  }

  /** The state a run reaches. */
  ghost function Exec(c: Conf, steps: seq<Step>): State {
    if |steps| == 0 then INITIAL
    else Next(c, Exec(c, steps[..|steps| - 1]), steps[|steps| - 1])
  }

  lemma ExecOneMore(c: Conf, steps: seq<Step>, step: Step)
    ensures Exec(c, steps + [step]) == Next(c, Exec(c, steps), step)
  {
    assert (steps + [step])[..|steps|] == steps;
  }
}
