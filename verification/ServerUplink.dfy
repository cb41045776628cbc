/** What sessions inject into the server's device, over every interleaving, and how a
    cancelled session winds down. */
module ServerUplink {
  import opened Prelude
  import opened Ipv4
  import opened Frame
  import opened ServerMachine
  import opened ServerTraffic

  /** Well-formed, within the configured MTU, and from this address. */
  predicate Genuine(p: Packet, a: Addr, mtu: int) {
    WellFormed(p) && Source(p) == a && |p| <= mtu
  }

  /** A message passes exactly when it is a packet frame around a genuine packet. */
  lemma AcceptsExactlyGenuine(raw: seq<Byte>, a: Addr, mtu: int, p: Packet)
    ensures ServerAccepts(raw, a, mtu) == Some(p) <==>
            Genuine(p, a, mtu) && exists flags: Word16 :: Encoded(TYPE_PACKET, flags, p) == Success(raw)
  {
    if ServerAccepts(raw, a, mtu) == Some(p) {
      DecodeAcceptsExactlyEncodings(raw);
      assert Encoded(TYPE_PACKET, Decoded(raw).value.flags, p) == Success(raw);
    }
    if flags: Word16 :| Encoded(TYPE_PACKET, flags, p) == Success(raw) {
      DecodeInvertsEncode(Frame(TYPE_PACKET, flags, p));
    }
  }

  lemma AcceptedIsGenuine(raw: seq<Byte>, a: Addr, mtu: int, p: Packet)
    requires ServerAccepts(raw, a, mtu) == Some(p)
    ensures Genuine(p, a, mtu)
  {}

  /** Everything a session received was accepted and injected, in order, up to the message it
      is working on or left with. */
  ghost predicate UplinkOk(c: Conf, x: Session, written: seq<Packet>) {
    var n := |written|;
    && n <= |x.received| <= n + 1
    && (forall k :: 0 <= k < n ==> ServerAccepts(x.received[k], x.id.addr, c.mtu) == Some(written[k]))
    && (match x.pc
        case Validating(raw) => |x.received| == n + 1 && raw == x.received[n]
        case Injecting(p) => |x.received| == n + 1 && ServerAccepts(x.received[n], x.id.addr, c.mtu) == Some(p)
        case Tallying(p) => |x.received| == n > 0 && p == written[n - 1]
        case Unregistering => true
        case Cancelling => true
        case Finished => true
        case _ => |x.received| == n)
  }

  ghost predicate Uplink(c: Conf, s: State) {
    && (forall i: nat :: i < |s.sessions| ==> UplinkOk(c, s.sessions[i], WrittenBy(s.tun, i)))
    && (forall k :: 0 <= k < |s.tun| ==>
          s.tun[k].0 < |s.sessions| && Genuine(s.tun[k].1, s.sessions[s.tun[k].0].id.addr, c.mtu))
  }

  /** Steps that leave every session's uplink where it is, except that it may give up. */
  ghost predicate SameUplink(s: State, t: State) {
    && t.tun == s.tun && |t.sessions| == |s.sessions|
    && forall i: nat :: i < |s.sessions| ==>
      var x, y := s.sessions[i], t.sessions[i];
      y.id == x.id && y.received == x.received && (y.pc == x.pc || y.pc.Unregistering? || y.pc.Cancelling?
        || y.pc.Finished? || (Settled(x.pc) && Settled(y.pc)))
  }

  /** Between messages. */
  predicate Settled(pc: HandlerPc) {
    pc.Registering? || pc.Locked? || pc.Accepting? || pc.Checking? || pc.Reading? || pc.Tallying?
  }

  lemma SameUplinkSession(c: Conf, x: Session, y: Session, written: seq<Packet>)
    requires UplinkOk(c, x, written) && y.id == x.id && y.received == x.received
    requires y.pc == x.pc || y.pc.Unregistering? || y.pc.Cancelling? || y.pc.Finished? || (Settled(x.pc) && Settled(y.pc))
    requires y.pc.Tallying? ==> y.pc == x.pc
    ensures UplinkOk(c, y, written)
  {}

  lemma SameUplinkKeepsUplink(c: Conf, s: State, t: State)
    requires Uplink(c, s) && SameUplink(s, t)
    requires forall i: nat :: i < |t.sessions| && t.sessions[i].pc.Tallying? ==> t.sessions[i].pc == s.sessions[i].pc
    ensures Uplink(c, t)
  {
    forall i: nat | i < |t.sessions|
      ensures UplinkOk(c, t.sessions[i], WrittenBy(t.tun, i))
    {
      SameUplinkSession(c, s.sessions[i], t.sessions[i], WrittenBy(s.tun, i));
    }
  }

  lemma RegistryMovesNoUplink(c: Conf, s: State, i: nat, h: HandlerStep)
    requires Uplink(c, s) && i < |s.sessions| && TouchesRegistry(h)
    ensures Uplink(c, RegistryNext(c, s, i, h))
  {
    RegistryFrame(c, s, i, h);
    RegistryLeavesOrSettles(c, s, i, h);
    SameUplinkKeepsUplink(c, s, RegistryNext(c, s, i, h));
  }

  lemma RegistryLeavesOrSettles(c: Conf, s: State, i: nat, h: HandlerStep)
    requires i < |s.sessions| && TouchesRegistry(h)
    ensures var pc, after := s.sessions[i].pc, RegistryNext(c, s, i, h).sessions[i].pc;
            after == pc || after.Cancelling? || (Settled(pc) && (after.Locked? || after.Accepting?))
  {}

  lemma InjectingKeepsUplink(c: Conf, x: Session, k: Counters, written: seq<Packet>)
    requires UplinkOk(c, x, written) && x.pc.Injecting?
    ensures var e := LocalStep(c, x, k, Inject(true));
            && e.session.id == x.id && e.written == Some(x.pc.payload)
            && UplinkOk(c, e.session, written + [x.pc.payload]) && Genuine(x.pc.payload, x.id.addr, c.mtu)
  {
    AcceptedIsGenuine(x.received[|written|], x.id.addr, c.mtu, x.pc.payload);
  }

  lemma SilentStepKeepsUplink(c: Conf, x: Session, k: Counters, h: HandlerStep, written: seq<Packet>)
    requires UplinkOk(c, x, written) && h != Inject(true)
    ensures var e := LocalStep(c, x, k, h);
            e.session.id == x.id && e.written.None? && UplinkOk(c, e.session, written)
  {}

  /** One local step keeps its session's uplink, with what it wrote. */
  lemma LocalKeepsUplink(c: Conf, x: Session, k: Counters, h: HandlerStep, written: seq<Packet>)
    requires UplinkOk(c, x, written)
    ensures var e := LocalStep(c, x, k, h);
            && e.session.id == x.id
            && (e.written.None? ==> UplinkOk(c, e.session, written))
            && (e.written.Some? ==> UplinkOk(c, e.session, written + [e.written.value])
                                    && Genuine(e.written.value, x.id.addr, c.mtu))
  {
    if h != Inject(true) {
      SilentStepKeepsUplink(c, x, k, h, written);
    } else if x.pc.Injecting? {
      InjectingKeepsUplink(c, x, k, written);
    }
  }

  lemma HandlerKeepsUplink(c: Conf, s: State, i: nat, h: HandlerStep)
    requires Uplink(c, s) && i < |s.sessions|
    ensures Uplink(c, HandlerNext(c, s, i, h))
  {
    if TouchesRegistry(h) {
      RegistryMovesNoUplink(c, s, i, h);
    } else {
      var e := LocalStep(c, s.sessions[i], s.counters, h);
      LocalKeepsUplink(c, s.sessions[i], s.counters, h, WrittenBy(s.tun, i));
      EffectKeepsUplink(c, s, i, e);
    }
  }

  lemma EffectKeepsUplink(c: Conf, s: State, i: nat, e: Effect)
    requires Uplink(c, s) && i < |s.sessions| && e.session.id == s.sessions[i].id
    requires e.written.None? ==> UplinkOk(c, e.session, WrittenBy(s.tun, i))
    requires e.written.Some? ==> UplinkOk(c, e.session, WrittenBy(s.tun, i) + [e.written.value])
                                 && Genuine(e.written.value, s.sessions[i].id.addr, c.mtu)
    ensures Uplink(c, Put(s, i, e.session).(tun := Log(s.tun, i, e.written), counters := e.counters))
  {
    var t := Put(s, i, e.session).(tun := Log(s.tun, i, e.written), counters := e.counters);
    forall k: nat | k < |t.sessions|
      ensures UplinkOk(c, t.sessions[k], WrittenBy(t.tun, k))
    {
      assert UplinkOk(c, s.sessions[k], WrittenBy(s.tun, k));
      if e.written.Some? {
        LogsGrow([], BadCount, s.tun, (i, e.written.value), k);
      }
    }
  }

  lemma OthersKeepUplink(c: Conf, s: State, i: nat, w: WriterStep)
    requires Uplink(c, s) && i < |s.sessions|
    ensures Uplink(c, WriterNext(s, i, w)) && Uplink(c, CancelSession(s, i))
  {
    WriterFrame(s.sessions[i], w);
    SameUplinkKeepsUplink(c, s, WriterNext(s, i, w));
    SameUplinkKeepsUplink(c, s, CancelSession(s, i));
  }

  lemma LoopKeepsUplink(c: Conf, s: State, l: LoopStep)
    requires Uplink(c, s)
    ensures Uplink(c, LoopNext(s, l))
  {
    LoopFrame(s, l);
    SameUplinkKeepsUplink(c, s, LoopNext(s, l));
  }

  lemma ConnectKeepsUplink(c: Conf, s: State, digest: Option<Digest>, hello: Option<Hello>, welcomed: bool)
    requires Uplink(c, s)
    ensures Uplink(c, Connected(c, s, digest, hello, welcomed))
  {
    NothingFromStrangers(s.tun, |s.sessions|);
  }

  lemma StepKeepsUplink(c: Conf, s: State, step: Step)
    requires Uplink(c, s)
    ensures Uplink(c, Next(c, s, step))
  {
    match step
    case Connect(digest, hello, welcomed) => ConnectKeepsUplink(c, s, digest, hello, welcomed);
    case ContextEnds(i) => if i < |s.sessions| { OthersKeepUplink(c, s, i, Take); }
    case Handler(i, h) => if i < |s.sessions| { HandlerKeepsUplink(c, s, i, h); }
    case Writer(i, w) => if i < |s.sessions| { OthersKeepUplink(c, s, i, w); }
    case Loop(l) => LoopKeepsUplink(c, s, l);
  }

  lemma {:induction false} EveryRunUplink(c: Conf, steps: seq<Step>)
    ensures Uplink(c, Exec(c, steps))
  {
    if |steps| > 0 {
      EveryRunUplink(c, steps[..|steps| - 1]);
      StepKeepsUplink(c, Exec(c, steps[..|steps| - 1]), steps[|steps| - 1]);
    }
  }

  // ----- Main results -----

  /** Every packet in the device log is well-formed, within the configured MTU and from the
      address of the authenticated session that wrote it. */
  lemma DeviceLogIsGenuine(c: Conf, steps: seq<Step>, k: nat)
    requires k < |Exec(c, steps).tun|
    ensures var s := Exec(c, steps); var (i, p) := s.tun[k];
            i < |s.sessions| && WellFormed(p) && Source(p) == s.sessions[i].id.addr && |p| <= c.mtu
  {
    EveryRunUplink(c, steps);
  }

  /** What a session injects is, in order and byte for byte, what it received: all of it but at
      most the last message. */
  lemma UplinkIsFaithful(c: Conf, steps: seq<Step>, i: nat)
    requires i < |Exec(c, steps).sessions|
    ensures var s := Exec(c, steps);
            WrittenBy(s.tun, i) <= Payloads(s.sessions[i].received)
            && |s.sessions[i].received| <= |WrittenBy(s.tun, i)| + 1
  {
    EveryRunUplink(c, steps);
    var s := Exec(c, steps);
    var written := WrittenBy(s.tun, i);
    forall k | 0 <= k < |written|
      ensures written[k] == Payloads(s.sessions[i].received)[k]
    {
      assert ServerAccepts(s.sessions[i].received[k], s.sessions[i].id.addr, c.mtu) == Some(written[k]);
    }
  }

  /** A message past the cancellation check may still be injected. */
  function Budget(x: Session): nat {
    if x.pc.Reading? || x.pc.Validating? || x.pc.Injecting? then 1 else 0
  }

  lemma LocalSpendsItsBudget(c: Conf, x: Session, k: Counters, h: HandlerStep)
    requires x.cancelled
    ensures var e := LocalStep(c, x, k, h);
            e.session.cancelled && (if e.written.Some? then 1 else 0) + Budget(e.session) <= Budget(x)
  {}

  lemma HandlerSpendsItsBudget(c: Conf, s: State, j: nat, h: HandlerStep, i: nat)
    requires i < |s.sessions| && j < |s.sessions| && s.sessions[i].cancelled
    ensures var t := HandlerNext(c, s, j, h);
            |t.sessions| == |s.sessions| && t.sessions[i].cancelled
            && |WrittenBy(t.tun, i)| + Budget(t.sessions[i]) <= |WrittenBy(s.tun, i)| + Budget(s.sessions[i])
  {
    HandlerFrame(c, s, j, h);
    if TouchesRegistry(h) {
      RegistryFrame(c, s, j, h);
    } else {
      LocalSpendsItsBudget(c, s.sessions[i], s.counters, h);
      var e := LocalStep(c, s.sessions[j], s.counters, h);
      if e.written.Some? {
        LogsGrow([], BadCount, s.tun, (j, e.written.value), i);
      }
    }
  }

  lemma CancelledSpendsItsBudget(c: Conf, s: State, step: Step, i: nat)
    requires i < |s.sessions| && s.sessions[i].cancelled
    ensures var t := Next(c, s, step);
            i < |t.sessions| && t.sessions[i].cancelled
            && |WrittenBy(t.tun, i)| + Budget(t.sessions[i]) <= |WrittenBy(s.tun, i)| + Budget(s.sessions[i])
  {
    match step
    case Handler(j, h) => if j < |s.sessions| { HandlerSpendsItsBudget(c, s, j, h, i); }
    case Writer(j, w) => if j < |s.sessions| { WriterFrame(s.sessions[j], w); }
    case Loop(l) => LoopFrame(s, l);
    case _ =>
  }

  /** Once its Cancel has executed, a session adds at most one more packet to the device log,
      however long the run goes on. */
  lemma {:induction false} CancelledInjectsAtMostOneMore(c: Conf, steps: seq<Step>, more: seq<Step>, i: nat)
    requires i < |Exec(c, steps).sessions| && Exec(c, steps).sessions[i].cancelled
    ensures var t := Exec(c, steps + more);
            i < |t.sessions| && t.sessions[i].cancelled
            && |WrittenBy(t.tun, i)| + Budget(t.sessions[i])
               <= |WrittenBy(Exec(c, steps).tun, i)| + Budget(Exec(c, steps).sessions[i])
               <= |WrittenBy(Exec(c, steps).tun, i)| + 1
  {
    if |more| == 0 {
      assert steps + more == steps;
    } else {
      var init := more[..|more| - 1];
      CancelledInjectsAtMostOneMore(c, steps, init, i);
      assert steps + more == (steps + init) + [more[|more| - 1]];
      ExecOneMore(c, steps + init, more[|more| - 1]);
      CancelledSpendsItsBudget(c, Exec(c, steps + init), more[|more| - 1], i);
    }
  }

  /** How many of its own steps a cancelled handler still needs. */
  function Remaining(pc: HandlerPc): nat {
    match pc
    case Registering => 10
    case Locked(_) => 9
    case Accepting => 8
    case Reading => 7
    case Validating(_) => 6
    case Injecting(_) => 5
    case Tallying(_) => 4
    case Checking => 3
    case Unregistering => 2
    case Cancelling => 1
    case Finished => 0
  }

  /** The step a handler takes next when its reads and writes fail. */
  function Ahead(pc: HandlerPc): HandlerStep {
    match pc
    case Registering => RegisterLocked
    case Locked(_) => RegisterEffect
    case Accepting => RegisterAccept
    case Checking => Check
    case Reading => Receive(None)
    case Validating(_) => Validate
    case Injecting(_) => Inject(false)
    case Tallying(_) => Tally
    case Unregistering => Unregister
    case Cancelling => CancelSelf
    case Finished => CancelSelf
  }

  lemma LocalWindsDown(c: Conf, x: Session, k: Counters, h: HandlerStep)
    requires x.cancelled
    ensures var e := LocalStep(c, x, k, h);
            e == Effect(x, None, k) || Remaining(e.session.pc) < Remaining(x.pc)
    ensures var a := Ahead(x.pc);
            TouchesRegistry(a) || x.pc.Finished? || Remaining(LocalStep(c, x, k, a).session.pc) < Remaining(x.pc)
  {}

  lemma RegistryWindsDown(c: Conf, s: State, i: nat, h: HandlerStep)
    requires i < |s.sessions| && TouchesRegistry(h)
    ensures RegistryNext(c, s, i, h) == s || Remaining(RegistryNext(c, s, i, h).sessions[i].pc) < Remaining(s.sessions[i].pc)
    ensures h == Ahead(s.sessions[i].pc) ==>
              Remaining(RegistryNext(c, s, i, h).sessions[i].pc) < Remaining(s.sessions[i].pc)
  {}

  /** A cancelled session always terminates: until it is finished one of its steps is enabled,
      and every step it takes, whatever its reads and writes do, brings it nearer the end. */
  lemma CancelledSessionsWindDown(c: Conf, s: State, i: nat, h: HandlerStep)
    requires i < |s.sessions| && s.sessions[i].cancelled
    ensures var t := HandlerNext(c, s, i, h);
            t == s || Remaining(t.sessions[i].pc) < Remaining(s.sessions[i].pc)
    ensures var t := HandlerNext(c, s, i, Ahead(s.sessions[i].pc));
            s.sessions[i].pc.Finished? || Remaining(t.sessions[i].pc) < Remaining(s.sessions[i].pc)
  {
    LocalWindsDown(c, s.sessions[i], s.counters, h);
    if TouchesRegistry(h) {
      RegistryWindsDown(c, s, i, h);
    }
    if TouchesRegistry(Ahead(s.sessions[i].pc)) {
      RegistryWindsDown(c, s, i, Ahead(s.sessions[i].pc));
    }
  }

  /** No other goroutine moves a handler: winding down cannot be undone from outside. */
  lemma OnlyItsOwnStepsMoveAHandler(c: Conf, s: State, step: Step, i: nat)
    requires i < |s.sessions| && !(step.Handler? && step.i == i)
    ensures i < |Next(c, s, step).sessions| && Next(c, s, step).sessions[i].pc == s.sessions[i].pc
  {
    match step
    case Handler(j, h) => if j < |s.sessions| { HandlerFrame(c, s, j, h); }
    case Loop(l) => LoopFrame(s, l);
    case Writer(j, w) => if j < |s.sessions| { WriterFrame(s.sessions[j], w); }
    case _ =>
  }
}
