/** What the client's plumbing can be made to do, and all it does: the exact condition of every way
    on and every way out, and runs from the start that go as far as the bounds allow. */
module ClientProgress {
  import opened Prelude
  import opened Ipv4
  import opened Frame
  import opened ClientMachine
  import opened ClientTraffic
  import opened ClientDownlink

  // ----- The reader -----

  /** A device read is put exactly when it is a datagram in exactly that many bytes, from the assigned
      address and within the MTU; any other read is followed by the next. */
  lemma ReadsExactly(c: Conf, s: State, n: nat, buffer: seq<Byte>, p: Packet)
    requires s.reader == Reading
    ensures var t := Next(c, s, Reader(Read(n, buffer)));
            t.reader == Putting(p) <==>
            && n <= |buffer| && n <= c.mtu && p == buffer[..n]
            && exists d: Datagram :: d.Valid() && d.Serialize() == p && d.src == c.address
    ensures var t := Next(c, s, Reader(Read(n, buffer))); !t.reader.Putting? ==> t == s
  {
    ReadableIsConforming(c, n, buffer);
    if n <= |buffer| {
      AcceptsExactlyDatagramsFrom(buffer[..n], c.address);
    }
  }

  /** A packet in the reader's hand goes onto the queue exactly when fewer than 512 wait; and the
      reader gives it up only when the context is done. */
  lemma PutsExactlyWhen(c: Conf, s: State, p: Packet)
    requires s.reader == Putting(p)
    ensures Next(c, s, Reader(PutPacket)) ==
            if |s.queue| < 512 then s.(reader := Reading, put := s.put + [p], queue := s.queue + [p]) else s
    ensures Next(c, s, Reader(GiveUp)).reader.Returned? <==> s.done
  {}

  /** The reader returns when the device fails, or when the context is done while it waits to put. */
  lemma ReaderReturnsExactlyWhen(c: Conf, s: State, step: Step)
    requires !s.reader.Returned?
    ensures Next(c, s, step).reader.Returned? <==>
            || (step == Reader(ReadFails) && s.reader.Reading?)
            || (step == Reader(GiveUp) && s.reader.Putting? && s.done)
  {}

  /** A read, put and all. */
  lemma Accepts(c: Conf, before: seq<Step>, p: Packet) returns (steps: seq<Step>)
    requires Conforming(c, p)
    requires var s := Exec(c, before); s.reader == Reading && |s.queue| < 512
    ensures var s := Exec(c, before); Exec(c, steps) == s.(put := s.put + [p], queue := s.queue + [p])
  {
    assert p[..|p|] == p;
    ReadableIsConforming(c, |p|, p);
    ExecOneMore(c, before, Reader(Read(|p|, p)));
    steps := before + [Reader(Read(|p|, p))];
    PutsExactlyWhen(c, Exec(c, steps), p);
    ExecOneMore(c, steps, Reader(PutPacket));
    steps := steps + [Reader(PutPacket)];
  }

  ghost predicate AllConform(c: Conf, packets: seq<Packet>) {
    forall k :: 0 <= k < |packets| ==> Conforming(c, packets[k])
  }

  /** Any list of up to 512 packets the client forwards can be waiting at once, with no session. */
  lemma {:induction false} QueueFills(c: Conf, packets: seq<Packet>) returns (steps: seq<Step>)
    requires AllConform(c, packets) && |packets| <= 512
    ensures Exec(c, steps) == INITIAL.(put := packets, queue := packets)
  {
    if |packets| == 0 {
      steps := [];
    } else {
      var n := |packets| - 1;
      var before := QueueFills(c, packets[..n]);
      steps := Accepts(c, before, packets[n]);
      assert packets == packets[..n] + [packets[n]];
    }
  }

  /** The bound is reached: 512 packets wait. */
  lemma QueueBoundIsReached(c: Conf, p: Packet) returns (steps: seq<Step>)
    requires Conforming(c, p)
    ensures |Exec(c, steps).queue| == 512
  {
    steps := QueueFills(c, seq(512, _ => p));
  }

  // ----- Sessions -----

  const LIVE := Session(false, Idle, Receiving, [])

  /** A session starts exactly when none is running, and the first of its goroutines to exit is what
      lets it end. */
  lemma SessionsStartAndEndExactlyWhen(c: Conf, s: State)
    ensures Next(c, s, Start) == if s.running then s else s.(running := true, sessions := s.sessions + [LIVE])
    ensures s.running && |s.sessions| > 0 ==>
              var i := |s.sessions| - 1; var x := s.sessions[i];
              Next(c, s, End) ==
              if x.writer.Exited? || x.receiver.Left? then
                s.(running := false, sessions := s.sessions[i := x.(cancelled := true)])
              else s
  {}

  /** The run's context is done from the step that ends it on, and not before. */
  lemma DoneExactlyWhen(c: Conf, s: State, step: Step)
    ensures Next(c, s, step).done <==> s.done || step.ContextEnds?
  {}

  lemma Begin(c: Conf) returns (steps: seq<Step>)
    ensures Exec(c, steps) == INITIAL.(running := true, sessions := [LIVE])
  {
    ExecOneMore(c, [], Start);
    steps := [] + [Start];
    assert Exec(c, []) == INITIAL;
  }

  /** A live session's waiting writer takes the next packet and writes it. */
  lemma Writes(c: Conf, before: seq<Step>, i: nat, p: Packet, raw: seq<Byte>) returns (steps: seq<Step>)
    requires var s := Exec(c, before);
             && i < |s.sessions| && s.sessions[i].writer == Idle && !s.sessions[i].cancelled && !s.done
             && s.queue != [] && s.queue[0] == p
    requires Encoded(TYPE_PACKET, 0, p) == Success(raw)
    ensures var s := Exec(c, before);
            Exec(c, steps) == s.(taken := s.taken + 1, queue := s.queue[1..], wire := s.wire + [Sent(i, s.taken, raw)])
  {
    var s := Exec(c, before);
    ExecOneMore(c, before, Writer(i, Take));
    steps := before + [Writer(i, Take)];
    ExecOneMore(c, steps, Writer(i, Write(true)));
    steps := steps + [Writer(i, Write(true))];
    assert s.sessions[i].(writer := Idle) == s.sessions[i];
    assert s.sessions[i := s.sessions[i]] == s.sessions;
  }

  /** One live session has written all that was put. */
  ghost predicate WroteAll(s: State, packets: seq<Packet>) {
    && s.put == packets && s.queue == [] && Payloads(Frames(s.wire)) == packets
    && s.sessions == [LIVE] && s.running && !s.done && s.reader == Reading
  }

  /** For every list of packets the client forwards, of any length, some run from the start puts them
      all and has one session that wrote them all, in order, and is still live. */
  lemma {:induction false} SessionsWriteEverything(c: Conf, packets: seq<Packet>) returns (steps: seq<Step>)
    requires AllConform(c, packets)
    ensures WroteAll(Exec(c, steps), packets)
  {
    if |packets| == 0 {
      steps := Begin(c);
      assert Frames(Exec(c, steps).wire) == [];
    } else {
      var n := |packets| - 1;
      assert AllConform(c, packets[..n]) && Conforming(c, packets[n]);
      var before := SessionsWriteEverything(c, packets[..n]);
      steps := WritesOneMore(c, before, packets[..n], packets[n]);
      assert packets == packets[..n] + [packets[n]];
    }
  }

  lemma WritesOneMore(c: Conf, before: seq<Step>, packets: seq<Packet>, p: Packet) returns (steps: seq<Step>)
    requires Conforming(c, p) && WroteAll(Exec(c, before), packets)
    ensures WroteAll(Exec(c, steps), packets + [p])
  {
    AcceptsExactlyDatagrams(p);
    PacketsAreFramed(p);
    var raw := Encoded(TYPE_PACKET, 0, p).value;
    var s := Exec(c, before);
    steps := Accepts(c, before, p);
    assert Exec(c, steps).queue == [p];
    steps := Writes(c, steps, 0, p, raw);
    FramesGrow(s.wire, Sent(0, s.taken, raw));
    PayloadsGrow(Frames(s.wire), raw);
  }

  lemma FramesGrow(wire: seq<Sent>, e: Sent)
    ensures Frames(wire + [e]) == Frames(wire) + [e.frame]
  {}

  /** A live session's receiver takes a message that passes to the device. */
  lemma Delivers(c: Conf, before: seq<Step>, i: nat, raw: seq<Byte>, p: Packet) returns (steps: seq<Step>)
    requires var s := Exec(c, before);
             i < |s.sessions| && s.sessions[i].receiver == Receiving && !s.sessions[i].cancelled && !s.done
    requires ClientAccepts(c, raw) == Some(p)
    ensures var s := Exec(c, before); var x := s.sessions[i];
            Exec(c, steps) == s.(
              sessions := s.sessions[i := x.(received := x.received + [raw])], device := s.device + [(i, p)])
  {
    ExecOneMore(c, before, Receiver(i, Receive(Some(raw))));
    steps := before + [Receiver(i, Receive(Some(raw)))];
    ExecOneMore(c, steps, Receiver(i, Inject(true)));
    steps := steps + [Receiver(i, Inject(true))];
  }

  ghost predicate AllPass(c: Conf, raws: seq<seq<Byte>>, packets: seq<Packet>) {
    |raws| == |packets| && forall k :: 0 <= k < |raws| ==> ClientAccepts(c, raws[k]) == Some(packets[k])
  }

  /** One live session has received these messages and delivered these packets. */
  ghost predicate DeliveredAll(s: State, raws: seq<seq<Byte>>, packets: seq<Packet>) {
    && s.sessions == [LIVE.(received := raws)] && s.running && !s.done
    && WrittenBy(s.device, 0) == packets && |s.device| == |packets|
  }

  /** For every list of messages the client accepts, of any length, some run from the start has one
      session that received them all, delivered all their packets in order, and is still live. */
  lemma {:induction false} SessionsDeliverEverything(c: Conf, raws: seq<seq<Byte>>, packets: seq<Packet>) returns (steps: seq<Step>)
    requires AllPass(c, raws, packets)
    ensures DeliveredAll(Exec(c, steps), raws, packets)
  {
    if |raws| == 0 {
      steps := Begin(c);
    } else {
      var n := |raws| - 1;
      assert AllPass(c, raws[..n], packets[..n]) && ClientAccepts(c, raws[n]) == Some(packets[n]);
      var before := SessionsDeliverEverything(c, raws[..n], packets[..n]);
      steps := DeliversOneMore(c, before, raws[..n], packets[..n], raws[n], packets[n]);
      assert raws == raws[..n] + [raws[n]] && packets == packets[..n] + [packets[n]];
    }
  }

  lemma DeliversOneMore(c: Conf, before: seq<Step>, raws: seq<seq<Byte>>, packets: seq<Packet>, raw: seq<Byte>, p: Packet)
    returns (steps: seq<Step>)
    requires ClientAccepts(c, raw) == Some(p) && DeliveredAll(Exec(c, before), raws, packets)
    ensures DeliveredAll(Exec(c, steps), raws + [raw], packets + [p])
  {
    steps := Delivers(c, before, 0, raw, p);
    WrittenByGrows(Exec(c, before).device, (0, p), 0);
  }

  // ----- Ways out -----

  /** In every run a writer exits when its context is done or a ping failed while it waits, or when it
      writes and the connection fails or the session is over; it then has lost the packet in its
      hand, and only then. */
  lemma WriterExitsExactlyWhen(c: Conf, steps: seq<Step>, i: nat, w: WriterStep)
    requires i < |Exec(c, steps).sessions| && !Exec(c, steps).sessions[i].writer.Exited?
    ensures var s := Exec(c, steps); var x, y := s.sessions[i].writer, Next(c, s, Writer(i, w)).sessions[i].writer;
            && (y == Exited(None) <==> w.Stop? && x.Idle?)
            && (y.Exited? && y.lost.Some? <==> w.Write? && x.Holding? && (!w.ok || s.sessions[i].cancelled || s.done))
            && (y.Exited? && y.lost.Some? ==> y.lost == Some(x.n))
  {
    var s := Exec(c, steps);
    if s.sessions[i].writer.Holding? {
      WriterEncodeNeverFails(c, steps, i, s.sessions[i].writer.n, s.sessions[i].writer.packet);
    }
  }

  /** A receiver leaves when its read fails or its session is over, when the message does not pass the
      checks, and when the device write fails. */
  lemma ReceiverLeavesExactlyWhen(c: Conf, x: Session, done: bool, r: ReceiverStep)
    requires !x.receiver.Left?
    ensures Received(c, x, done, r).0.receiver.Left? <==>
            || (x.receiver.Receiving? && r == Receive(None))
            || (x.receiver.Receiving? && r.Receive? && r.message.Some?
                && (x.cancelled || done || ClientAccepts(c, r.message.value).None?))
            || (x.receiver.Injecting? && r == Inject(false))
  {}

  /** A goroutine is moved by its own steps only, and a session is cancelled only by ending. */
  lemma OnlyItsOwnSteps(c: Conf, s: State, step: Step, i: nat)
    requires i < |s.sessions|
    ensures var t := Next(c, s, step);
            && i < |t.sessions|
            && (!(step.Writer? && step.i == i) ==> t.sessions[i].writer == s.sessions[i].writer)
            && (!(step.Receiver? && step.i == i) ==>
                  t.sessions[i].receiver == s.sessions[i].receiver && t.sessions[i].received == s.sessions[i].received)
            && (t.sessions[i].cancelled != s.sessions[i].cancelled ==> step.End? && s.running && i == |s.sessions| - 1)
  {
    match step
    case Receiver(j, r) => if j < |s.sessions| { ReceivedKeepsTheWriter(c, s.sessions[j], s.done, r); }
    case _ =>
  }

  lemma StepSendsNothing(c: Conf, s: State, step: Step, i: nat)
    requires i < |s.sessions| && s.sessions[i].cancelled
    ensures var t := Next(c, s, step);
            i < |t.sessions| && t.sessions[i].cancelled && SentBy(t.wire, i) == SentBy(s.wire, i)
  {
    OnlyItsOwnSteps(c, s, step, i);
    match step
    case Writer(j, w) =>
      if j < |s.sessions| && |WriterNext(s, j, w).wire| > |s.wire| {
        assert WriterNext(s, j, w).wire[..|s.wire|] == s.wire;
      }
    case _ =>
  }

  /** Once cancelled, a session sends nothing more. */
  lemma {:induction false} CancelledSendsNothingMore(c: Conf, steps: seq<Step>, more: seq<Step>, i: nat)
    requires i < |Exec(c, steps).sessions| && Exec(c, steps).sessions[i].cancelled
    ensures var s, t := Exec(c, steps), Exec(c, steps + more);
            i < |t.sessions| && t.sessions[i].cancelled && SentBy(t.wire, i) == SentBy(s.wire, i)
  {
    if |more| == 0 {
      assert steps + more == steps;
    } else {
      var init := more[..|more| - 1];
      CancelledSendsNothingMore(c, steps, init, i);
      assert steps + more == (steps + init) + [more[|more| - 1]];
      ExecOneMore(c, steps + init, more[|more| - 1]);
      StepSendsNothing(c, Exec(c, steps + init), more[|more| - 1], i);
    }
  }
}
