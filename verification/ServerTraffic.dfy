/** What the server does with packets, over every interleaving: downlink order and contents,
    uplink source checks, queue bounds and counters. */
module ServerTraffic {
  import opened Prelude
  import opened Ipv4
  import opened Frame
  import opened ServerMachine
  import opened ServerOwnership

  /** The packet the writer holds, or lost when it stopped. */
  function InHand(w: WriterPc): seq<Packet> {
    match w
    case Holding(p) => [p]
    case Stopped(Some(p)) => [p]
    case _ => []
  }

  /** The packets Dispatch queued for session i, in order. */
  function EnqueuedTo(outcomes: seq<Outcome>, i: nat): seq<Packet> {
    if |outcomes| == 0 then []
    else
      var n := |outcomes| - 1;
      var rest := EnqueuedTo(outcomes[..n], i);
      match outcomes[n]
      case Enqueued(p, t) => if t == i then rest + [p] else rest
      case _ => rest
  }

  /** The valid packets read from the device for an address, in order. */
  function AddressedTo(outcomes: seq<Outcome>, a: Addr): seq<Packet> {
    if |outcomes| == 0 then []
    else
      var n := |outcomes| - 1;
      var rest := AddressedTo(outcomes[..n], a);
      var o := outcomes[n];
      if o.BadCount? || !WellFormed(o.packet) || Destination(o.packet) != a then rest else rest + [o.packet]
  }

  lemma LogsGrow(outcomes: seq<Outcome>, o: Outcome, tun: seq<(nat, Packet)>, w: (nat, Packet), i: nat)
    ensures EnqueuedTo(outcomes + [o], i) ==
            if o.Enqueued? && o.peer == i then EnqueuedTo(outcomes, i) + [o.packet] else EnqueuedTo(outcomes, i)
    ensures WrittenBy(tun + [w], i) == if w.0 == i then WrittenBy(tun, i) + [w.1] else WrittenBy(tun, i)
  {
    assert (outcomes + [o])[..|outcomes|] == outcomes;
    WrittenByGrows(tun, w, i);
  }

  predicate For(p: Packet, a: Addr) { WellFormed(p) && Destination(p) == a }

  // ----- Downlink: device to session -----

  predicate Unstarted(x: Session) { x.pc.Registering? || x.pc.Locked? || x.pc.Accepting? }

  /** What was queued for a session is what it sent, then what its writer holds or lost, then
      what is still queued. */
  ghost predicate DownlinkOk(x: Session, enqueued: seq<Packet>) {
    && |x.queue| <= QUEUE_CAPACITY
    && enqueued == Payloads(x.frames) + InHand(x.writer) + x.queue
    && (forall k :: 0 <= k < |enqueued| ==> For(enqueued[k], x.id.addr))
    && (forall k :: 0 <= k < |x.frames| ==> GoodFrame(x.frames[k]))
    && (Unstarted(x) ==> x.writer.NotStarted?)
  }

  ghost predicate OutcomeOk(o: Outcome, ss: seq<Session>) {
    match o
    case BadCount => true
    case Malformed(p) => !WellFormed(p)
    case NoPeer(p) => WellFormed(p)
    case QueueFull(p, t) => t < |ss| && For(p, ss[t].id.addr)
    case Enqueued(p, t) => t < |ss| && For(p, ss[t].id.addr)
  }

  ghost predicate LoopOk(l: LoopPc, ss: seq<Session>) {
    match l
    case LookingUp(p) => WellFormed(p)
    case Sending(t, p) => t < |ss| && For(p, ss[t].id.addr)
    case _ => true
  }

  ghost predicate Downlink(s: State) {
    && LoopOk(s.loop, s.sessions)
    && (forall k :: 0 <= k < |s.outcomes| ==> OutcomeOk(s.outcomes[k], s.sessions))
    && (forall i: nat :: i < |s.sessions| ==> DownlinkOk(s.sessions[i], EnqueuedTo(s.outcomes, i)))
  }

  /** Steps that move no downlink packet. */
  ghost predicate SameDownlink(s: State, t: State) {
    && |t.sessions| == |s.sessions| && t.outcomes == s.outcomes && t.loop == s.loop
    && forall i: nat :: i < |s.sessions| ==>
      var x, y := s.sessions[i], t.sessions[i];
      y.id == x.id && y.queue == x.queue && y.frames == x.frames
      && (y.writer == x.writer || (x.writer.NotStarted? && y.writer.Idle? && !Unstarted(y)))
      && (Unstarted(y) ==> Unstarted(x))
  }

  lemma SameDownlinkKeepsDownlink(s: State, t: State)
    requires Downlink(s) && SameDownlink(s, t)
    ensures Downlink(t)
  {}

  /** A handler never touches its write loop, except to start it. */
  lemma LocalStartsTheWriter(c: Conf, x: Session, k: Counters, h: HandlerStep)
    ensures var y := LocalStep(c, x, k, h).session;
            && (y.writer == x.writer || (x.pc.Accepting? && y.writer.Idle? && !Unstarted(y)))
            && (Unstarted(y) ==> Unstarted(x))
  {}

  lemma HandlerMovesNoDownlink(c: Conf, s: State, i: nat, h: HandlerStep)
    requires i < |s.sessions| && (Unstarted(s.sessions[i]) ==> s.sessions[i].writer.NotStarted?)
    ensures SameDownlink(s, HandlerNext(c, s, i, h))
  {
    HandlerFrame(c, s, i, h);
    if TouchesRegistry(h) {
      RegistryFrame(c, s, i, h);
      RegistryStartsLate(c, s, i, h);
    } else {
      LocalStartsTheWriter(c, s.sessions[i], s.counters, h);
    }
  }

  lemma RegistryStartsLate(c: Conf, s: State, i: nat, h: HandlerStep)
    requires i < |s.sessions|
    ensures Unstarted(RegistryNext(c, s, i, h).sessions[i]) ==> Unstarted(s.sessions[i])
  {}

  /** One writer step moves packets along the session's own pipeline only. */
  lemma TakeKeepsOrder(x: Session, enqueued: seq<Packet>)
    requires DownlinkOk(x, enqueued) && x.writer.Idle? && x.queue != []
    ensures DownlinkOk(x.(writer := Holding(x.queue[0]), queue := x.queue[1..]), enqueued)
  {
    assert Payloads(x.frames) + [] + x.queue == Payloads(x.frames) + [x.queue[0]] + x.queue[1..];
  }

  lemma WriteKeepsOrder(x: Session, p: Packet, ok: bool, enqueued: seq<Packet>)
    requires DownlinkOk(x, enqueued) && x.writer == Holding(p)
    ensures DownlinkOk(Written(x, p, ok), enqueued)
  {
    assert p == enqueued[|x.frames|];
    AcceptsExactlyDatagrams(p);
    PacketsAreFramed(p);
    var frame := Encoded(TYPE_PACKET, 0, p).value;
    PayloadsGrow(x.frames, frame);
    assert Payloads(x.frames) + [p] + x.queue == Payloads(x.frames + [frame]) + [] + x.queue;
  }

  lemma WriterKeepsOrder(x: Session, w: WriterStep, enqueued: seq<Packet>)
    requires DownlinkOk(x, enqueued)
    ensures DownlinkOk(WriterStepped(x, w), enqueued)
  {
    match (w, x.writer)
    case (Write(ok), Holding(p)) => WriteKeepsOrder(x, p, ok, enqueued);
    case (Take, Idle) => if x.queue != [] { TakeKeepsOrder(x, enqueued); }
    case _ =>
  }

  lemma WriterKeepsDownlink(s: State, i: nat, w: WriterStep)
    requires Downlink(s) && i < |s.sessions|
    ensures Downlink(WriterNext(s, i, w))
  {
    WriterKeepsOrder(s.sessions[i], w, EnqueuedTo(s.outcomes, i));
    WriterFrame(s.sessions[i], w);
  }

  /** Finishing an iteration without queueing anything. */
  lemma OutcomeKeepsDownlink(s: State, o: Outcome, l: LoopPc, counters: Counters)
    requires Downlink(s) && !o.Enqueued? && OutcomeOk(o, s.sessions) && LoopOk(l, s.sessions)
    ensures Downlink(s.(outcomes := s.outcomes + [o], loop := l, counters := counters))
  {
    var t := s.(outcomes := s.outcomes + [o], loop := l, counters := counters);
    forall i: nat | i < |t.sessions|
      ensures DownlinkOk(t.sessions[i], EnqueuedTo(t.outcomes, i))
    {
      LogsGrow(s.outcomes, o, s.tun, (0, []), i);
    }
  }

  lemma OfferKeepsOrder(x: Session, enqueued: seq<Packet>, p: Packet)
    requires DownlinkOk(x, enqueued) && For(p, x.id.addr) && |x.queue| < QUEUE_CAPACITY
    ensures DownlinkOk(x.(queue := x.queue + [p]), enqueued + [p])
  {
    assert Payloads(x.frames) + InHand(x.writer) + (x.queue + [p]) ==
           Payloads(x.frames) + InHand(x.writer) + x.queue + [p];
  }

  lemma SendKeepsDownlink(s: State, target: nat, p: Packet)
    requires Downlink(s) && s.loop == Sending(target, p)
    ensures Downlink(Sent(s, target, p))
  {
    if |s.sessions[target].queue| < QUEUE_CAPACITY {
      QueueingKeepsDownlink(s, target, p);
    } else {
      OutcomeKeepsDownlink(s, QueueFull(p, target), ReadingTun, Sent(s, target, p).counters);
    }
  }

  lemma QueueingKeepsDownlink(s: State, target: nat, p: Packet)
    requires Downlink(s) && s.loop == Sending(target, p) && |s.sessions[target].queue| < QUEUE_CAPACITY
    ensures Downlink(Sent(s, target, p))
  {
    var t := Sent(s, target, p);
    OfferKeepsOrder(s.sessions[target], EnqueuedTo(s.outcomes, target), p);
    forall i: nat | i < |t.sessions|
      ensures DownlinkOk(t.sessions[i], EnqueuedTo(t.outcomes, i))
    {
      LogsGrow(s.outcomes, Enqueued(p, target), s.tun, (0, []), i);
      assert DownlinkOk(s.sessions[i], EnqueuedTo(s.outcomes, i));
    }
  }

  lemma LoopKeepsDownlink(s: State, l: LoopStep)
    requires Ownership(s) && Downlink(s)
    ensures Downlink(LoopNext(s, l))
  {
    var t := LoopNext(s, l);
    match (l, s.loop)
    case (TunRead(n, buffer), ReadingTun) =>
      if |t.outcomes| > |s.outcomes| {
        OutcomeKeepsDownlink(s, t.outcomes[|s.outcomes|], ReadingTun, t.counters);
      }
    case (Lookup, LookingUp(p)) =>
      if |t.outcomes| > |s.outcomes| {
        OutcomeKeepsDownlink(s, NoPeer(p), ReadingTun, t.counters);
      }
    case (Send, Sending(target, p)) => SendKeepsDownlink(s, target, p);
    case _ =>
  }

  lemma ConnectKeepsDownlink(c: Conf, s: State, digest: Option<Digest>, hello: Option<Hello>, welcomed: bool)
    requires Downlink(s)
    ensures Downlink(Connected(c, s, digest, hello, welcomed))
  {
    NothingForStrangers(s.outcomes, s.sessions);
    var t := Connected(c, s, digest, hello, welcomed);
    forall k | 0 <= k < |t.outcomes|
      ensures OutcomeOk(t.outcomes[k], t.sessions)
    {
      assert OutcomeOk(s.outcomes[k], s.sessions);
    }
  }

  lemma {:induction false} NothingForStrangers(outcomes: seq<Outcome>, ss: seq<Session>)
    requires forall k :: 0 <= k < |outcomes| ==> OutcomeOk(outcomes[k], ss)
    ensures EnqueuedTo(outcomes, |ss|) == []
  {
    if |outcomes| > 0 {
      var init := outcomes[..|outcomes| - 1];
      assert forall k :: 0 <= k < |init| ==> init[k] == outcomes[k];
      NothingForStrangers(init, ss);
      assert OutcomeOk(outcomes[|outcomes| - 1], ss);
    }
  }

  lemma StepKeepsDownlink(c: Conf, s: State, step: Step)
    requires Ownership(s) && Downlink(s)
    ensures Downlink(Next(c, s, step))
  {
    match step
    case Connect(digest, hello, welcomed) => ConnectKeepsDownlink(c, s, digest, hello, welcomed);
    case ContextEnds(i) => if i < |s.sessions| { CancelKeepsDownlink(s, i); }
    case Handler(i, h) => if i < |s.sessions| { HandlerKeepsDownlink(c, s, i, h); }
    case Writer(i, w) => if i < |s.sessions| { WriterKeepsDownlink(s, i, w); }
    case Loop(l) => LoopKeepsDownlink(s, l);
  }

  lemma CancelKeepsDownlink(s: State, i: nat)
    requires Downlink(s) && i < |s.sessions|
    ensures Downlink(CancelSession(s, i))
  {
    SameDownlinkKeepsDownlink(s, CancelSession(s, i));
  }

  lemma HandlerKeepsDownlink(c: Conf, s: State, i: nat, h: HandlerStep)
    requires Downlink(s) && i < |s.sessions|
    ensures Downlink(HandlerNext(c, s, i, h))
  {
    HandlerMovesNoDownlink(c, s, i, h);
    SameDownlinkKeepsDownlink(s, HandlerNext(c, s, i, h));
  }

  lemma {:induction false} EveryRunDownlink(c: Conf, steps: seq<Step>)
    ensures Downlink(Exec(c, steps))
  {
    if |steps| > 0 {
      var init := steps[..|steps| - 1];
      EveryRunDownlink(c, init);
      EveryRun(c, init);
      StepKeepsDownlink(c, Exec(c, init), steps[|steps| - 1]);
    }
  }

  // ----- Main results -----

  lemma {:induction false} EnqueuedAreAddressed(outcomes: seq<Outcome>, ss: seq<Session>, i: nat)
    requires forall k :: 0 <= k < |outcomes| ==> OutcomeOk(outcomes[k], ss)
    requires i < |ss|
    ensures Subsequence(EnqueuedTo(outcomes, i), AddressedTo(outcomes, ss[i].id.addr))
  {
    if |outcomes| == 0 {
      PrefixIsSubsequence(EnqueuedTo(outcomes, i), AddressedTo(outcomes, ss[i].id.addr));
    } else {
      var n := |outcomes| - 1;
      assert forall k :: 0 <= k < n ==> outcomes[..n][k] == outcomes[k];
      EnqueuedAreAddressed(outcomes[..n], ss, i);
      assert OutcomeOk(outcomes[n], ss);
      if !outcomes[n].BadCount? {
        SubsequenceGrows(EnqueuedTo(outcomes[..n], i), AddressedTo(outcomes[..n], ss[i].id.addr), outcomes[n].packet);
      }
    }
  }

  /** What session i's connection carries decodes to an in-order, byte-identical subsequence of
      the valid device packets addressed to it; every packet queued for it is carried, in the
      writer's hand or lost by it, or still queued, in that order. */
  lemma DownlinkIsFaithful(c: Conf, steps: seq<Step>, i: nat)
    requires i < |Exec(c, steps).sessions|
    ensures var s := Exec(c, steps); var x := s.sessions[i];
            && Subsequence(Payloads(x.frames), AddressedTo(s.outcomes, x.id.addr))
            && (forall k :: 0 <= k < |x.frames| ==> Decoded(x.frames[k]) == Success(Frame(TYPE_PACKET, 0, Payloads(x.frames)[k])))
            && EnqueuedTo(s.outcomes, i) == Payloads(x.frames) + InHand(x.writer) + x.queue
  {
    EveryRunDownlink(c, steps);
    var s := Exec(c, steps);
    var x := s.sessions[i];
    EnqueuedAreAddressed(s.outcomes, s.sessions, i);
    PrefixIsSubsequence(Payloads(x.frames), EnqueuedTo(s.outcomes, i));
    SubsequenceTransitive(Payloads(x.frames), EnqueuedTo(s.outcomes, i), AddressedTo(s.outcomes, x.id.addr));
    forall k | 0 <= k < |x.frames|
      ensures Decoded(x.frames[k]) == Success(Frame(TYPE_PACKET, 0, Payloads(x.frames)[k]))
    {
      assert GoodFrame(x.frames[k]);
      DecodeInvertsEncode(Frame(TYPE_PACKET, 0, PayloadOf(x.frames[k])));
    }
  }

  /** Every queue ever created, of live, displaced and departed sessions alike, stays within its
      capacity and holds only well-formed packets for its own address, although Dispatch sends
      after releasing the lock. */
  lemma QueuesAreBoundedAndAddressed(c: Conf, steps: seq<Step>, i: nat)
    requires i < |Exec(c, steps).sessions|
    ensures var x := Exec(c, steps).sessions[i];
            |x.queue| <= 256 && forall k :: 0 <= k < |x.queue| ==> WellFormed(x.queue[k]) && Destination(x.queue[k]) == x.id.addr
  {
    EveryRunDownlink(c, steps);
    QueueIsAddressed(Exec(c, steps).sessions[i], EnqueuedTo(Exec(c, steps).outcomes, i));
  }

  lemma QueueIsAddressed(x: Session, enqueued: seq<Packet>)
    requires DownlinkOk(x, enqueued)
    ensures forall k :: 0 <= k < |x.queue| ==> For(x.queue[k], x.id.addr)
  {
    forall k | 0 <= k < |x.queue|
      ensures For(x.queue[k], x.id.addr)
    {
      assert x.queue[k] == enqueued[|enqueued| - |x.queue| + k];
    }
  }

  /** The write loop's Encode never fails. */
  lemma WriterEncodeNeverFails(c: Conf, steps: seq<Step>, i: nat, p: Packet)
    requires i < |Exec(c, steps).sessions| && Exec(c, steps).sessions[i].writer == Holding(p)
    ensures Encoded(TYPE_PACKET, 0, p).Success?
  {
    EveryRunDownlink(c, steps);
    var s := Exec(c, steps);
    assert p == EnqueuedTo(s.outcomes, i)[|s.sessions[i].frames|];
    AcceptsExactlyDatagrams(p);
  }
}
