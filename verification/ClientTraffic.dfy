/** Conservation and order of a client's packets over every run, with any number of sessions. */
module ClientTraffic {
  import opened Prelude
  import opened Ipv4
  import opened Frame
  import opened ClientMachine

  /** The packet a writer holds, or lost when it exited. */
  function InHand(w: WriterPc): Option<nat> {
    match w
    case Holding(n, _) => Some(n)
    case Exited(lost) => lost
    case Idle => None
  }

  ghost function WrittenTimes(s: State, n: nat): nat { Count(s.wire, (e: Sent) => e.n == n) }

  ghost function HandTimes(s: State, n: nat): nat { Count(s.sessions, (x: Session) => InHand(x.writer) == Some(n)) }

  /** A packet that left the queue is in exactly one place. */
  ghost predicate Conserved(s: State) {
    forall n: nat :: WrittenTimes(s, n) + HandTimes(s, n) == if n < s.taken then 1 else 0
  }

  /** What readTun lets through. */
  predicate Conforming(c: Conf, p: Packet) { WellFormed(p) && Source(p) == c.address && |p| <= c.mtu }

  ghost predicate QueueOk(c: Conf, s: State) {
    && s.taken <= |s.put| && s.queue == s.put[s.taken..] && |s.queue| <= OUTBOUND_CAPACITY
    && (forall k :: 0 <= k < |s.put| ==> Conforming(c, s.put[k]))
    && (s.reader.Putting? ==> Conforming(c, s.reader.packet))
  }

  /** One writer's hand, against the packets put, how many were taken and what was written. */
  ghost predicate HandOk(w: WriterPc, put: seq<Packet>, taken: nat, wire: seq<Sent>, live: bool) {
    match w
    case Holding(n, p) =>
      n < taken && n < |put| && p == put[n] && (live ==> forall k :: 0 <= k < |wire| ==> wire[k].n < n)
    case _ => true
  }

  ghost predicate HandsOk(s: State) {
    forall i: nat :: i < |s.sessions| ==>
      HandOk(s.sessions[i].writer, s.put, s.taken, s.wire, !s.sessions[i].cancelled)
  }

  /** Only the session runSession is running is not cancelled. */
  ghost predicate OneLive(s: State) {
    forall i: nat :: i < |s.sessions| && !s.sessions[i].cancelled ==> s.running && i == |s.sessions| - 1
  }

  ghost predicate WireOk(s: State) {
    && (forall k: nat :: k < |s.wire| ==>
          var e := s.wire[k];
          e.session < |s.sessions| && e.n < s.taken && e.n < |s.put| && Encoded(TYPE_PACKET, 0, s.put[e.n]) == Success(e.frame))
    && (forall j: nat, k: nat :: j < k < |s.wire| ==> s.wire[j].n < s.wire[k].n)
  }

  ghost predicate Uplink(c: Conf, s: State) {
    QueueOk(c, s) && HandsOk(s) && OneLive(s) && WireOk(s)
  }

  // ----- Order -----

  lemma ReadableIsConforming(c: Conf, n: nat, buffer: seq<Byte>)
    ensures match Readable(c, n, buffer)
            case Some(p) => Conforming(c, p) && n <= |buffer| && p == buffer[..n]
            case None => n > |buffer| || !Conforming(c, buffer[..n])
  {}

  lemma ReaderKeepsUplink(c: Conf, s: State, r: ReaderStep)
    requires Uplink(c, s)
    ensures Uplink(c, ReaderNext(c, s, r))
  {
    match r
    case Read(n, buffer) => ReadableIsConforming(c, n, buffer);
    case _ =>
  }

  lemma TakeKeepsUplink(c: Conf, s: State, i: nat)
    requires Uplink(c, s) && i < |s.sessions|
    ensures Uplink(c, WriterNext(s, i, Take))
  {}

  lemma HandIsFramed(c: Conf, s: State, i: nat, n: nat, p: Packet)
    requires Uplink(c, s) && i < |s.sessions| && s.sessions[i].writer == Holding(n, p)
    ensures n < s.taken && n < |s.put| && p == s.put[n]
    ensures Encoded(TYPE_PACKET, 0, p).Success?
  {
    assert HandOk(s.sessions[i].writer, s.put, s.taken, s.wire, !s.sessions[i].cancelled);
    assert Conforming(c, s.put[n]);
    AcceptsExactlyDatagrams(p);
  }

  lemma WriteKeepsUplink(c: Conf, s: State, i: nat, n: nat, p: Packet, ok: bool)
    requires Uplink(c, s) && i < |s.sessions| && s.sessions[i].writer == Holding(n, p)
    ensures Uplink(c, Written(s, i, n, p, ok))
  {
    HandIsFramed(c, s, i, n, p);
    assert HandOk(s.sessions[i].writer, s.put, s.taken, s.wire, !s.sessions[i].cancelled);
  }

  lemma WriterKeepsUplink(c: Conf, s: State, i: nat, w: WriterStep)
    requires Uplink(c, s) && i < |s.sessions|
    ensures Uplink(c, WriterNext(s, i, w))
  {
    match (w, s.sessions[i].writer)
    case (Take, _) => TakeKeepsUplink(c, s, i);
    case (Write(ok), Holding(n, p)) => WriteKeepsUplink(c, s, i, n, p, ok);
    case _ =>
  }

  lemma ReceivedKeepsTheWriter(c: Conf, x: Session, done: bool, r: ReceiverStep)
    ensures var y := Received(c, x, done, r).0; y.writer == x.writer && y.cancelled == x.cancelled
  {}

  lemma StepKeepsUplink(c: Conf, s: State, step: Step)
    requires Uplink(c, s)
    ensures Uplink(c, Next(c, s, step))
  {
    match step
    case Reader(r) => ReaderKeepsUplink(c, s, r);
    case Writer(i, w) => if i < |s.sessions| { WriterKeepsUplink(c, s, i, w); }
    case Receiver(i, r) => if i < |s.sessions| { ReceivedKeepsTheWriter(c, s.sessions[i], s.done, r); }
    case _ =>
  }

  lemma {:induction false} EveryRunUplink(c: Conf, steps: seq<Step>)
    ensures Uplink(c, Exec(c, steps))
  {
    if |steps| > 0 {
      EveryRunUplink(c, steps[..|steps| - 1]);
      StepKeepsUplink(c, Exec(c, steps[..|steps| - 1]), steps[|steps| - 1]);
    }
  }

  // ----- Conservation -----

  /** Steps that change no hand and write nothing. */
  lemma SameHands(s: State, t: State, n: nat)
    requires t.wire == s.wire && |t.sessions| == |s.sessions|
    requires forall i :: 0 <= i < |s.sessions| ==> InHand(t.sessions[i].writer) == InHand(s.sessions[i].writer)
    ensures WrittenTimes(t, n) == WrittenTimes(s, n) && HandTimes(t, n) == HandTimes(s, n)
  {
    CountSame(s.sessions, t.sessions, (x: Session) => InHand(x.writer) == Some(n));
  }

  lemma NewSessionHoldsNothing(s: State, n: nat)
    ensures var t := Started(s); WrittenTimes(t, n) == WrittenTimes(s, n) && HandTimes(t, n) == HandTimes(s, n)
  {
    CountAppend(s.sessions, Session(false, Idle, Receiving, []), (x: Session) => InHand(x.writer) == Some(n));
  }

  lemma HandChanges(s: State, i: nat, w: WriterPc, n: nat)
    requires i < |s.sessions|
    ensures HandTimes(SetWriter(s, i, w), n) ==
            HandTimes(s, n) - (if InHand(s.sessions[i].writer) == Some(n) then 1 else 0) + (if InHand(w) == Some(n) then 1 else 0)
  {
    CountChange(s.sessions, SetWriter(s, i, w).sessions, i, (x: Session) => InHand(x.writer) == Some(n));
  }

  lemma WriteConserves(s: State, i: nat, n: nat, p: Packet, ok: bool, m: nat)
    requires i < |s.sessions| && s.sessions[i].writer == Holding(n, p)
    ensures var t := Written(s, i, n, p, ok);
            WrittenTimes(t, m) + HandTimes(t, m) == WrittenTimes(s, m) + HandTimes(s, m) && t.taken == s.taken
  {
    HandChanges(s, i, Idle, m);
    HandChanges(s, i, Exited(Some(n)), m);
    match Encoded(TYPE_PACKET, 0, p)
    case Success(frame) => CountAppend(s.wire, Sent(i, n, frame), (e: Sent) => e.n == m);
    case Failure(_) =>
  }

  lemma WriterConserves(s: State, i: nat, w: WriterStep)
    requires Conserved(s) && i < |s.sessions|
    ensures Conserved(WriterNext(s, i, w))
  {
    var t := WriterNext(s, i, w);
    forall m: nat
      ensures WrittenTimes(t, m) + HandTimes(t, m) == if m < t.taken then 1 else 0
    {
      match (w, s.sessions[i].writer)
      case (Take, Idle) => if s.queue != [] { HandChanges(s, i, Holding(s.taken, s.queue[0]), m); }
      case (Write(ok), Holding(n, p)) => WriteConserves(s, i, n, p, ok, m);
      case (Stop, Idle) => HandChanges(s, i, Exited(None), m);
      case _ =>
    }
  }

  lemma ReceiverConserves(c: Conf, s: State, i: nat, r: ReceiverStep)
    requires Conserved(s) && i < |s.sessions|
    ensures Conserved(ReceiverNext(c, s, i, r))
  {
    ReceivedKeepsTheWriter(c, s.sessions[i], s.done, r);
    forall m: nat
      ensures var t := ReceiverNext(c, s, i, r); WrittenTimes(t, m) + HandTimes(t, m) == if m < t.taken then 1 else 0
    {
      SameHands(s, ReceiverNext(c, s, i, r), m);
    }
  }

  lemma SessionsConserve(s: State, m: nat)
    ensures var t := Started(s); WrittenTimes(t, m) + HandTimes(t, m) == WrittenTimes(s, m) + HandTimes(s, m)
    ensures var t := Ended(s); WrittenTimes(t, m) + HandTimes(t, m) == WrittenTimes(s, m) + HandTimes(s, m)
  {
    NewSessionHoldsNothing(s, m);
    SameHands(s, Ended(s), m);
  }

  lemma OthersConserve(c: Conf, s: State, step: Step, m: nat)
    requires !step.Writer? && !step.Receiver?
    ensures var t := Next(c, s, step);
            t.taken == s.taken && WrittenTimes(t, m) + HandTimes(t, m) == WrittenTimes(s, m) + HandTimes(s, m)
  {
    match step
    case Reader(r) => SameHands(s, ReaderNext(c, s, r), m);
    case _ => SessionsConserve(s, m);
  }

  lemma StepConserves(c: Conf, s: State, step: Step)
    requires Conserved(s)
    ensures Conserved(Next(c, s, step))
  {
    match step
    case Writer(i, w) => if i < |s.sessions| { WriterConserves(s, i, w); }
    case Receiver(i, r) => if i < |s.sessions| { ReceiverConserves(c, s, i, r); }
    case _ =>
      forall m: nat
        ensures WrittenTimes(Next(c, s, step), m) + HandTimes(Next(c, s, step), m) == if m < Next(c, s, step).taken then 1 else 0
      {
        OthersConserve(c, s, step, m);
      }
  }

  lemma {:induction false} EveryRunConserves(c: Conf, steps: seq<Step>)
    ensures Conserved(Exec(c, steps))
  {
    if |steps| > 0 {
      EveryRunConserves(c, steps[..|steps| - 1]);
      StepConserves(c, Exec(c, steps[..|steps| - 1]), steps[|steps| - 1]);
    }
  }

  // ----- Totals -----

  ghost function Hands(ss: seq<Session>): nat { Count(ss, (x: Session) => InHand(x.writer).Some?) }

  ghost predicate Totalled(s: State) { s.taken == |s.wire| + Hands(s.sessions) }

  lemma WriterKeepsTotals(s: State, i: nat, w: WriterStep)
    requires Totalled(s) && i < |s.sessions|
    ensures Totalled(WriterNext(s, i, w))
  {
    CountChange(s.sessions, WriterNext(s, i, w).sessions, i, (x: Session) => InHand(x.writer).Some?);
  }

  lemma ReceiverKeepsTotals(c: Conf, s: State, i: nat, r: ReceiverStep)
    requires Totalled(s) && i < |s.sessions|
    ensures Totalled(ReceiverNext(c, s, i, r))
  {
    ReceivedKeepsTheWriter(c, s.sessions[i], s.done, r);
    CountSame(s.sessions, ReceiverNext(c, s, i, r).sessions, (x: Session) => InHand(x.writer).Some?);
  }

  lemma SessionsKeepTotals(s: State)
    requires Totalled(s)
    ensures Totalled(Started(s)) && Totalled(Ended(s))
  {
    CountAppend(s.sessions, Session(false, Idle, Receiving, []), (x: Session) => InHand(x.writer).Some?);
    CountSame(s.sessions, Ended(s).sessions, (x: Session) => InHand(x.writer).Some?);
  }

  lemma StepKeepsTotals(c: Conf, s: State, step: Step)
    requires Totalled(s)
    ensures Totalled(Next(c, s, step))
  {
    match step
    case Writer(i, w) => if i < |s.sessions| { WriterKeepsTotals(s, i, w); }
    case Receiver(i, r) => if i < |s.sessions| { ReceiverKeepsTotals(c, s, i, r); }
    case Reader(r) => ReaderKeepsTotals(c, s, r);
    case Start => SessionsKeepTotals(s);
    case End => SessionsKeepTotals(s);
    case ContextEnds =>
  }

  lemma ReaderKeepsTotals(c: Conf, s: State, r: ReaderStep)
    requires Totalled(s)
    ensures Totalled(ReaderNext(c, s, r))
  {}

  lemma {:induction false} EveryRunTotals(c: Conf, steps: seq<Step>)
    ensures Totalled(Exec(c, steps))
  {
    if |steps| > 0 {
      EveryRunTotals(c, steps[..|steps| - 1]);
      StepKeepsTotals(c, Exec(c, steps[..|steps| - 1]), steps[|steps| - 1]);
    }
  }

  // ----- Main results -----

  ghost function HeldTimes(s: State, n: nat): nat {
    Count(s.sessions, (x: Session) => x.writer.Holding? && x.writer.n == n)
  }

  ghost function LostTimes(s: State, n: nat): nat {
    Count(s.sessions, (x: Session) => x.writer == Exited(Some(n)))
  }

  /** Over every run with any number of sessions, the n-th packet ever put is exactly once in
      exactly one place: still queued, in one writer's hand, written, or lost. */
  lemma EveryPacketHasOneFate(c: Conf, steps: seq<Step>, n: nat)
    requires n < |Exec(c, steps).put|
    ensures var s := Exec(c, steps);
            if n < s.taken then WrittenTimes(s, n) + HeldTimes(s, n) + LostTimes(s, n) == 1
            else WrittenTimes(s, n) + HeldTimes(s, n) + LostTimes(s, n) == 0 && n - s.taken < |s.queue| && s.queue[n - s.taken] == s.put[n]
  {
    QueueIsBoundedAndConforming(c, steps);
    EveryRunConserves(c, steps);
    OneFate(Exec(c, steps), n);
  }

  lemma OneFate(s: State, n: nat)
    requires Conserved(s)
    ensures WrittenTimes(s, n) + HeldTimes(s, n) + LostTimes(s, n) == if n < s.taken then 1 else 0
  {
    assert WrittenTimes(s, n) + HandTimes(s, n) == if n < s.taken then 1 else 0;
    HandIsHeldOrLost(s, n);
  }

  lemma HandIsHeldOrLost(s: State, n: nat)
    ensures HandTimes(s, n) == HeldTimes(s, n) + LostTimes(s, n)
  {
    CountSplit(s.sessions, (x: Session) => InHand(x.writer) == Some(n),
               (x: Session) => x.writer.Holding? && x.writer.n == n, (x: Session) => x.writer == Exited(Some(n)));
  }

  /** The totals: every packet put is written, queued, held or lost, and each session holds or
      loses at most one, so k sessions lose at most k. */
  lemma AtMostOneLossPerSession(c: Conf, steps: seq<Step>)
    ensures var s := Exec(c, steps);
            var held := Count(s.sessions, (x: Session) => x.writer.Holding?);
            var lost := Count(s.sessions, (x: Session) => x.writer.Exited? && x.writer.lost.Some?);
            |s.put| == |s.wire| + |s.queue| + held + lost && held + lost <= |s.sessions|
  {
    EveryRunUplink(c, steps);
    EveryRunTotals(c, steps);
    var s := Exec(c, steps);
    var held, lost := (x: Session) => x.writer.Holding?, (x: Session) => x.writer.Exited? && x.writer.lost.Some?;
    CountSplit(s.sessions, (x: Session) => InHand(x.writer).Some?, held, lost);
    CountDisjoint(s.sessions, held, lost);
  }

  function Frames(wire: seq<Sent>): seq<seq<Byte>> {
    seq(|wire|, (k: nat) requires k < |wire| => wire[k].frame)
  }

  /** What all sessions together wrote decodes to an in-order, byte-identical subsequence of the
      packets put, none twice. */
  lemma WireIsInOrder(c: Conf, steps: seq<Step>)
    ensures var s := Exec(c, steps);
            && Subsequence(Payloads(Frames(s.wire)), s.put)
            && forall k: nat :: k < |s.wire| ==>
              s.wire[k].n < |s.put| && Decoded(s.wire[k].frame) == Success(Frame(TYPE_PACKET, 0, s.put[s.wire[k].n]))
  {
    EveryRunUplink(c, steps);
    var s := Exec(c, steps);
    var idx: seq<nat> := seq(|s.wire|, (k: nat) requires k < |s.wire| => s.wire[k].n);
    forall k: nat | k < |s.wire|
      ensures s.wire[k].n < |s.put| && Decoded(s.wire[k].frame) == Success(Frame(TYPE_PACKET, 0, s.put[s.wire[k].n]))
    {
      DecodeInvertsEncode(Frame(TYPE_PACKET, 0, s.put[s.wire[k].n]));
    }
    assert Embeds(Payloads(Frames(s.wire)), s.put, idx);
  }

  /** The queue is bounded and in order, and holds only packets readTun let through. */
  lemma QueueIsBoundedAndConforming(c: Conf, steps: seq<Step>)
    ensures var s := Exec(c, steps);
            && |s.queue| <= 512 && s.taken <= |s.put| && s.queue == s.put[s.taken..]
            && forall k :: 0 <= k < |s.put| ==> WellFormed(s.put[k]) && Source(s.put[k]) == c.address && |s.put[k]| <= c.mtu
  {
    EveryRunUplink(c, steps);
  }

  /** The writer's Encode never fails. */
  lemma WriterEncodeNeverFails(c: Conf, steps: seq<Step>, i: nat, n: nat, p: Packet)
    requires i < |Exec(c, steps).sessions| && Exec(c, steps).sessions[i].writer == Holding(n, p)
    ensures Encoded(TYPE_PACKET, 0, p).Success?
  {
    EveryRunUplink(c, steps);
    HandIsFramed(c, Exec(c, steps), i, n, p);
  }

  /** At most one session is not cancelled, and only the last can be. */
  lemma {:induction false} SessionsDoNotOverlap(c: Conf, steps: seq<Step>, i: nat)
    requires i < |Exec(c, steps).sessions| && !Exec(c, steps).sessions[i].cancelled
    ensures Exec(c, steps).running && i == |Exec(c, steps).sessions| - 1
  {
    EveryRunUplink(c, steps);
  }

  // ----- The loss bound is reached -----

  function AllLost(k: nat): seq<Session> {
    seq(k, (i: nat) => Session(true, Exited(Some(i)), Receiving, []))
  }

  /** After k sessions, each with one packet taken and its write failed. */
  predicate LostThemAll(s: State, k: nat) {
    s == State(false, Reading, s.put, k, [], AllLost(k), false, [], []) && |s.put| == k
  }

  /** For every k some run of k sessions puts k packets and loses them all. */
  lemma {:induction false} LossBoundIsReached(c: Conf, n: nat, buffer: seq<Byte>, k: nat) returns (steps: seq<Step>)
    requires Readable(c, n, buffer).Some?
    ensures LostThemAll(Exec(c, steps), k)
  {
    if k == 0 {
      steps := [];
    } else {
      var before := LossBoundIsReached(c, n, buffer, k - 1);
      steps := OneMoreLoss(c, before, n, buffer, k - 1);
    }
  }

  lemma OneMoreLoss(c: Conf, before: seq<Step>, n: nat, buffer: seq<Byte>, i: nat) returns (steps: seq<Step>)
    requires Readable(c, n, buffer).Some? && LostThemAll(Exec(c, before), i)
    ensures LostThemAll(Exec(c, steps), i + 1)
  {
    var s := Exec(c, before);
    var p := Readable(c, n, buffer).value;
    ExecOneMore(c, before, Start);
    steps := before + [Start];
    var s1 := s.(running := true, sessions := AllLost(i) + [Session(false, Idle, Receiving, [])]);
    ExecOneMore(c, steps, Reader(Read(n, buffer)));
    steps := steps + [Reader(Read(n, buffer))];
    ExecOneMore(c, steps, Reader(PutPacket));
    steps := steps + [Reader(PutPacket)];
    var s3 := s1.(put := s.put + [p], queue := [p]);
    assert Exec(c, steps) == s3;
    steps := FailedWrite(c, steps, i, p);
  }

  lemma FailedWrite(c: Conf, before: seq<Step>, i: nat, p: Packet) returns (steps: seq<Step>)
    requires var s := Exec(c, before);
             s == State(false, Reading, s.put, i, [p], AllLost(i) + [Session(false, Idle, Receiving, [])], true, [], []) && |s.put| == i + 1
    ensures LostThemAll(Exec(c, steps), i + 1)
  {
    var s := Exec(c, before);
    ExecOneMore(c, before, Writer(i, Take));
    steps := before + [Writer(i, Take)];
    var s1 := s.(taken := i + 1, queue := [], sessions := AllLost(i) + [Session(false, Holding(i, p), Receiving, [])]);
    assert Exec(c, steps) == s1;
    ExecOneMore(c, steps, Writer(i, Write(false)));
    steps := steps + [Writer(i, Write(false))];
    var s2 := s1.(sessions := AllLost(i) + [Session(false, Exited(Some(i)), Receiving, [])]);
    assert Exec(c, steps) == s2;
    ExecOneMore(c, steps, End);
    steps := steps + [End];
    assert Exec(c, steps).sessions == AllLost(i + 1);
  }
}
