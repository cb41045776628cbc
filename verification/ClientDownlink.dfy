/** What a client's sessions write to its device, over every run, and what each session of it
    sends. */
module ClientDownlink {
  import opened Prelude
  import opened Ipv4
  import opened Frame
  import opened ClientMachine
  import opened ClientTraffic

  /** Everything a session received was accepted and written to the device, in order, up to the
      message it is working on or left with. */
  ghost predicate SessionOk(c: Conf, x: Session, written: seq<Packet>) {
    var n := |written|;
    && n <= |x.received| <= n + 1
    && (forall k :: 0 <= k < n ==> ClientAccepts(c, x.received[k]) == Some(written[k]))
    && (x.receiver.Receiving? ==> |x.received| == n)
    && (x.receiver.Injecting? ==> |x.received| == n + 1 && ClientAccepts(c, x.received[n]) == Some(x.receiver.payload))
  }

  predicate Deliverable(c: Conf, p: Packet) { WellFormed(p) && Destination(p) == c.address && |p| <= c.mtu }

  ghost predicate Downlink(c: Conf, s: State) {
    && (forall i: nat :: i < |s.sessions| ==> SessionOk(c, s.sessions[i], WrittenBy(s.device, i)))
    && (forall k :: 0 <= k < |s.device| ==> s.device[k].0 < |s.sessions| && Deliverable(c, s.device[k].1))
  }

  lemma AcceptedIsDeliverable(c: Conf, raw: seq<Byte>, p: Packet)
    requires ClientAccepts(c, raw) == Some(p)
    ensures Deliverable(c, p)
  {}

  /** A message passes exactly when it is a packet frame around a deliverable packet. */
  lemma ClientAcceptsExactlyDeliverable(c: Conf, raw: seq<Byte>, p: Packet)
    ensures ClientAccepts(c, raw) == Some(p) <==>
            Deliverable(c, p) && exists flags: Word16 :: Encoded(TYPE_PACKET, flags, p) == Success(raw)
  {
    if ClientAccepts(c, raw) == Some(p) {
      DecodeAcceptsExactlyEncodings(raw);
      assert Encoded(TYPE_PACKET, Decoded(raw).value.flags, p) == Success(raw);
    }
    if flags: Word16 :| Encoded(TYPE_PACKET, flags, p) == Success(raw) {
      DecodeInvertsEncode(Frame(TYPE_PACKET, flags, p));
    }
  }

  lemma ReceivedKeepsSession(c: Conf, x: Session, done: bool, r: ReceiverStep, written: seq<Packet>)
    requires SessionOk(c, x, written)
    ensures var (y, out) := Received(c, x, done, r);
            match out
            case None => SessionOk(c, y, written)
            case Some(p) => SessionOk(c, y, written + [p]) && Deliverable(c, p)
  {
    match r
    case Inject(ok) =>
      if x.receiver.Injecting? {
        AcceptedIsDeliverable(c, x.received[|written|], x.receiver.payload);
      }
    case _ =>
  }

  lemma ReceiverKeepsDownlink(c: Conf, s: State, i: nat, r: ReceiverStep)
    requires Downlink(c, s) && i < |s.sessions|
    ensures Downlink(c, ReceiverNext(c, s, i, r))
  {
    var t := ReceiverNext(c, s, i, r);
    ReceivedKeepsSession(c, s.sessions[i], s.done, r, WrittenBy(s.device, i));
    var out := Received(c, s.sessions[i], s.done, r).1;
    forall k: nat | k < |t.sessions|
      ensures SessionOk(c, t.sessions[k], WrittenBy(t.device, k))
    {
      assert SessionOk(c, s.sessions[k], WrittenBy(s.device, k));
      if out.Some? {
        WrittenByGrows(s.device, (i, out.value), k);
      }
    }
  }

  /** Steps that leave every receiver alone. */
  ghost predicate SameReceivers(s: State, t: State) {
    && t.device == s.device && |t.sessions| == |s.sessions|
    && forall k: nat :: k < |s.sessions| ==>
      t.sessions[k].receiver == s.sessions[k].receiver && t.sessions[k].received == s.sessions[k].received
  }

  lemma SameReceiversKeepDownlink(c: Conf, s: State, t: State)
    requires Downlink(c, s) && SameReceivers(s, t)
    ensures Downlink(c, t)
  {
    forall k: nat | k < |t.sessions|
      ensures SessionOk(c, t.sessions[k], WrittenBy(t.device, k))
    {
      assert SessionOk(c, s.sessions[k], WrittenBy(s.device, k));
    }
  }

  lemma WritersLeaveReceivers(s: State, i: nat, w: WriterStep)
    requires i < |s.sessions|
    ensures SameReceivers(s, WriterNext(s, i, w))
  {}

  lemma StartKeepsDownlink(c: Conf, s: State)
    requires Downlink(c, s)
    ensures Downlink(c, Started(s))
  {
    NothingFromStrangers(s.device, |s.sessions|);
    forall k: nat | k < |s.sessions|
      ensures SessionOk(c, s.sessions[k], WrittenBy(s.device, k))
    {
    }
  }

  lemma StepKeepsDownlink(c: Conf, s: State, step: Step)
    requires Downlink(c, s)
    ensures Downlink(c, Next(c, s, step))
  {
    match step
    case Writer(i, w) =>
      if i < |s.sessions| {
        WritersLeaveReceivers(s, i, w);
        SameReceiversKeepDownlink(c, s, WriterNext(s, i, w));
      }
    case Receiver(i, r) => if i < |s.sessions| { ReceiverKeepsDownlink(c, s, i, r); }
    case Start => StartKeepsDownlink(c, s);
    case _ => SameReceiversKeepDownlink(c, s, Next(c, s, step));
  }

  lemma {:induction false} EveryRunDownlink(c: Conf, steps: seq<Step>)
    ensures Downlink(c, Exec(c, steps))
  {
    if |steps| > 0 {
      EveryRunDownlink(c, steps[..|steps| - 1]);
      StepKeepsDownlink(c, Exec(c, steps[..|steps| - 1]), steps[|steps| - 1]);
    }
  }

  // ----- Main results -----

  /** Every packet written to the client's device is well-formed, for its own address and within
      the negotiated MTU. */
  lemma DeviceLogIsDeliverable(c: Conf, steps: seq<Step>, k: nat)
    requires k < |Exec(c, steps).device|
    ensures var p := Exec(c, steps).device[k].1; WellFormed(p) && Destination(p) == c.address && |p| <= c.mtu
  {
    EveryRunDownlink(c, steps);
  }

  /** What a session writes to the device is, in order and byte for byte, what it received: all
      of it but at most the last message. */
  lemma DeliveryIsFaithful(c: Conf, steps: seq<Step>, i: nat)
    requires i < |Exec(c, steps).sessions|
    ensures var s := Exec(c, steps);
            WrittenBy(s.device, i) <= Payloads(s.sessions[i].received)
            && |s.sessions[i].received| <= |WrittenBy(s.device, i)| + 1
  {
    EveryRunDownlink(c, steps);
    var s := Exec(c, steps);
    var written := WrittenBy(s.device, i);
    assert SessionOk(c, s.sessions[i], written);
    forall k | 0 <= k < |written|
      ensures written[k] == Payloads(s.sessions[i].received)[k]
    {
      assert ClientAccepts(c, s.sessions[i].received[k]) == Some(written[k]);
    }
  }

  // ----- One session's share of the wire -----

  function SentBy(wire: seq<Sent>, i: nat): seq<seq<Byte>> {
    if |wire| == 0 then []
    else
      var rest := SentBy(wire[..|wire| - 1], i);
      if wire[|wire| - 1].session == i then rest + [wire[|wire| - 1].frame] else rest
  }

  lemma {:induction false} SentByIsAShare(wire: seq<Sent>, i: nat)
    ensures Subsequence(SentBy(wire, i), Frames(wire))
  {
    if |wire| == 0 {
      PrefixIsSubsequence(SentBy(wire, i), Frames(wire));
    } else {
      var n := |wire| - 1;
      SentByIsAShare(wire[..n], i);
      SubsequenceGrows(SentBy(wire[..n], i), Frames(wire[..n]), wire[n].frame);
      assert Frames(wire) == Frames(wire[..n]) + [wire[n].frame];
    }
  }

  lemma PayloadsOfAShare(xs: seq<seq<Byte>>, ys: seq<seq<Byte>>)
    requires Subsequence(xs, ys)
    ensures Subsequence(Payloads(xs), Payloads(ys))
  {
    var idx: seq<nat> :| Embeds(xs, ys, idx);
    assert Embeds(Payloads(xs), Payloads(ys), idx);
  }

  /** What one session sent is an in-order, byte-identical subsequence of the packets put, each
      frame around a conforming packet. */
  lemma SessionSendsInOrder(c: Conf, steps: seq<Step>, i: nat)
    ensures var s := Exec(c, steps);
            && Subsequence(Payloads(SentBy(s.wire, i)), s.put)
            && forall k :: 0 <= k < |SentBy(s.wire, i)| ==>
              var raw := SentBy(s.wire, i)[k];
              Encoded(TYPE_PACKET, 0, PayloadOf(raw)) == Success(raw) && Conforming(c, PayloadOf(raw))
  {
    var s := Exec(c, steps);
    WireIsInOrder(c, steps);
    SentByIsAShare(s.wire, i);
    PayloadsOfAShare(SentBy(s.wire, i), Frames(s.wire));
    SubsequenceTransitive(Payloads(SentBy(s.wire, i)), Payloads(Frames(s.wire)), s.put);
    ShareIsConforming(c, steps, i);
  }

  lemma ShareIsConforming(c: Conf, steps: seq<Step>, i: nat)
    ensures forall k :: 0 <= k < |SentBy(Exec(c, steps).wire, i)| ==>
              var raw := SentBy(Exec(c, steps).wire, i)[k];
              Encoded(TYPE_PACKET, 0, PayloadOf(raw)) == Success(raw) && Conforming(c, PayloadOf(raw))
  {
    var s := Exec(c, steps);
    EveryRunUplink(c, steps);
    WireIsInOrder(c, steps);
    SentByIsAShare(s.wire, i);
    var idx: seq<nat> :| Embeds(SentBy(s.wire, i), Frames(s.wire), idx);
    forall k | 0 <= k < |SentBy(s.wire, i)|
      ensures var raw := SentBy(s.wire, i)[k];
              Encoded(TYPE_PACKET, 0, PayloadOf(raw)) == Success(raw) && Conforming(c, PayloadOf(raw))
    {
      var e := s.wire[idx[k]];
      assert Decoded(e.frame) == Success(Frame(TYPE_PACKET, 0, s.put[e.n]));
    }
  }
}
