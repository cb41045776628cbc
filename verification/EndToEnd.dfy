/** Both ends together: a conforming client that is never rejected, and packets that arrive in
    order, byte for byte, across the connection in either direction.
    A connection delivers some first part of what was written to it. */
module EndToEnd {
  import opened Prelude
  import opened Frame
  import opened ServerTraffic
  import opened ServerUplink
  import S = ServerMachine
  import C = ClientMachine
  import D = ClientDownlink
  import T = ClientTraffic

  // ----- Uplink -----

  /** A packet readTun lets through passes every check of the server once framed, whatever the
      flags, when the client's MTU is not above the server's. */
  lemma ConformingPacketsPass(cc: C.Conf, mtu: int, flags: Word16, p: Packet, raw: seq<Byte>)
    requires T.Conforming(cc, p) && cc.mtu <= mtu && Encoded(TYPE_PACKET, flags, p) == Success(raw)
    ensures S.ServerAccepts(raw, cc.address, mtu) == Some(p)
  {
    AcceptsExactlyGenuine(raw, cc.address, mtu, p);
  }

  predicate Leaving(pc: S.HandlerPc) { pc.Unregistering? || pc.Cancelling? || pc.Finished? }

  /** A session is rejected for its last message only, and for good. */
  ghost predicate FairTo(c: S.Conf, x: S.Session) {
    x.rejected ==>
      Leaving(x.pc) && x.received != [] && S.ServerAccepts(x.received[|x.received| - 1], x.id.addr, c.mtu).None?
  }

  ghost predicate Fair(c: S.Conf, s: S.State) {
    forall i: nat :: i < |s.sessions| ==> FairTo(c, s.sessions[i])
  }

  lemma LocalIsFair(c: S.Conf, x: S.Session, k: S.Counters, h: S.HandlerStep, written: seq<Packet>)
    requires FairTo(c, x) && UplinkOk(c, x, written)
    ensures FairTo(c, S.LocalStep(c, x, k, h).session)
  {}

  lemma RegistryIsFair(c: S.Conf, s: S.State, i: nat, h: S.HandlerStep)
    requires Fair(c, s) && i < |s.sessions| && S.TouchesRegistry(h)
    ensures Fair(c, S.RegistryNext(c, s, i, h))
  {
    S.RegistryFrame(c, s, i, h);
    RegistryLeavesOrSettles(c, s, i, h);
  }

  lemma HandlerIsFair(c: S.Conf, s: S.State, i: nat, h: S.HandlerStep)
    requires Fair(c, s) && Uplink(c, s) && i < |s.sessions|
    ensures Fair(c, S.HandlerNext(c, s, i, h))
  {
    if S.TouchesRegistry(h) {
      RegistryIsFair(c, s, i, h);
    } else {
      LocalIsFair(c, s.sessions[i], s.counters, h, WrittenBy(s.tun, i));
    }
  }

  lemma StepIsFair(c: S.Conf, s: S.State, step: S.Step)
    requires Fair(c, s) && Uplink(c, s)
    ensures Fair(c, S.Next(c, s, step))
  {
    match step
    case Handler(i, h) => if i < |s.sessions| { HandlerIsFair(c, s, i, h); }
    case Writer(i, w) => if i < |s.sessions| { S.WriterFrame(s.sessions[i], w); SameHandlersStayFair(c, s, S.Next(c, s, step)); }
    case Loop(l) => S.LoopFrame(s, l); SameHandlersStayFair(c, s, S.Next(c, s, step));
    case ContextEnds(i) => SameHandlersStayFair(c, s, S.Next(c, s, step));
    case Connect(_, _, _) =>
  }

  /** Steps that leave every handler where it is. */
  lemma SameHandlersStayFair(c: S.Conf, s: S.State, t: S.State)
    requires Fair(c, s) && |t.sessions| == |s.sessions|
    requires forall i: nat :: i < |s.sessions| ==>
               var x, y := s.sessions[i], t.sessions[i];
               y.pc == x.pc && y.id == x.id && y.rejected == x.rejected && y.received == x.received
    ensures Fair(c, t)
  {}

  lemma {:induction false} EveryRunIsFair(c: S.Conf, steps: seq<S.Step>)
    ensures Fair(c, S.Exec(c, steps))
  {
    if |steps| > 0 {
      EveryRunIsFair(c, steps[..|steps| - 1]);
      EveryRunUplink(c, steps[..|steps| - 1]);
      StepIsFair(c, S.Exec(c, steps[..|steps| - 1]), steps[|steps| - 1]);
    }
  }

  /** Over every server run: a session whose messages are frames of conforming packets never
      meets one of the Invalid branches. */
  lemma ConformingClientsAreNeverRejected(c: S.Conf, steps: seq<S.Step>, i: nat, cc: C.Conf)
    requires i < |S.Exec(c, steps).sessions|
    requires var x := S.Exec(c, steps).sessions[i];
             && cc.address == x.id.addr && cc.mtu <= c.mtu
             && forall k :: 0 <= k < |x.received| ==>
               T.Conforming(cc, PayloadOf(x.received[k])) && GoodFrame(x.received[k])
    ensures !S.Exec(c, steps).sessions[i].rejected
  {
    EveryRunIsFair(c, steps);
    var x := S.Exec(c, steps).sessions[i];
    assert FairTo(c, x);
    if x.rejected {
      var raw := x.received[|x.received| - 1];
      ConformingPacketsPass(cc, c.mtu, 0, PayloadOf(raw), raw);
    }
  }

  /** Client to server, over any run of the client and any run of the server: when a server
      session has received some first part of what a client session sent, with the parameters
      they agreed on, it does not reject it, and what it injects is an in-order, byte-identical
      subsequence of the packets the client accepted from its device. */
  lemma UplinkArrivesInOrder(c: S.Conf, steps: seq<S.Step>, i: nat, cc: C.Conf, clientSteps: seq<C.Step>, j: nat)
    requires i < |S.Exec(c, steps).sessions|
    requires var x := S.Exec(c, steps).sessions[i];
             && cc.address == x.id.addr && cc.mtu <= c.mtu
             && x.received <= D.SentBy(C.Exec(cc, clientSteps).wire, j)
    ensures var s := S.Exec(c, steps);
            && !s.sessions[i].rejected
            && Subsequence(WrittenBy(s.tun, i), C.Exec(cc, clientSteps).put)
  {
    var s := S.Exec(c, steps);
    var x := s.sessions[i];
    var sent := D.SentBy(C.Exec(cc, clientSteps).wire, j);
    D.SessionSendsInOrder(cc, clientSteps, j);
    forall k | 0 <= k < |x.received|
      ensures T.Conforming(cc, PayloadOf(x.received[k])) && GoodFrame(x.received[k])
    {
      assert x.received[k] == sent[k];
    }
    ConformingClientsAreNeverRejected(c, steps, i, cc);
    UplinkIsFaithful(c, steps, i);
    PrefixOfPayloads(x.received, sent);
    PrefixIsSubsequence(WrittenBy(s.tun, i), Payloads(sent));
    SubsequenceTransitive(WrittenBy(s.tun, i), Payloads(sent), C.Exec(cc, clientSteps).put);
  }

  lemma PrefixOfPayloads(xs: seq<seq<Byte>>, ys: seq<seq<Byte>>)
    requires xs <= ys
    ensures Payloads(xs) <= Payloads(ys)
  {
    assert forall k :: 0 <= k < |xs| ==> xs[k] == ys[k];
  }

  // ----- Downlink -----

  /** A dispatched packet, framed, passes every check of the client it is addressed to exactly
      when it is no longer than the negotiated MTU. */
  lemma DispatchedPacketsPassExactlyWhenTheyFit(cc: C.Conf, p: Packet, raw: seq<Byte>)
    requires For(p, cc.address) && Encoded(TYPE_PACKET, 0, p) == Success(raw)
    ensures C.ClientAccepts(cc, raw) == if |p| <= cc.mtu then Some(p) else None
  {
    DecodeInvertsEncode(Frame(TYPE_PACKET, 0, p));
  }

  /** Server to client: when a client session has received some first part of what a server
      session sent it, what it writes to the client's device is an in-order, byte-identical
      subsequence of the valid packets for that client read from the server's device, and the
      client refuses among its messages exactly those longer than the MTU. */
  lemma DownlinkArrivesInOrder(c: S.Conf, steps: seq<S.Step>, i: nat, cc: C.Conf, clientSteps: seq<C.Step>, j: nat)
    requires i < |S.Exec(c, steps).sessions| && j < |C.Exec(cc, clientSteps).sessions|
    requires cc.address == S.Exec(c, steps).sessions[i].id.addr
    requires C.Exec(cc, clientSteps).sessions[j].received <= S.Exec(c, steps).sessions[i].frames
    ensures var s, t := S.Exec(c, steps), C.Exec(cc, clientSteps);
            && Subsequence(WrittenBy(t.device, j), AddressedTo(s.outcomes, cc.address))
            && forall k :: 0 <= k < |t.sessions[j].received| ==>
              (C.ClientAccepts(cc, t.sessions[j].received[k]).Some? <==> |PayloadOf(t.sessions[j].received[k])| <= cc.mtu)
  {
    var s, t := S.Exec(c, steps), C.Exec(cc, clientSteps);
    var frames, received := s.sessions[i].frames, t.sessions[j].received;
    D.DeliveryIsFaithful(cc, clientSteps, j);
    DownlinkIsFaithful(c, steps, i);
    PrefixOfPayloads(received, frames);
    PrefixIsSubsequence(WrittenBy(t.device, j), Payloads(frames));
    SubsequenceTransitive(WrittenBy(t.device, j), Payloads(frames), AddressedTo(s.outcomes, cc.address));
    FramesAreAddressed(c, steps, i);
    forall k | 0 <= k < |received|
      ensures C.ClientAccepts(cc, received[k]).Some? <==> |PayloadOf(received[k])| <= cc.mtu
    {
      assert received[k] == frames[k];
      DispatchedPacketsPassExactlyWhenTheyFit(cc, PayloadOf(received[k]), received[k]);
    }
  }

  lemma FramesAreAddressed(c: S.Conf, steps: seq<S.Step>, i: nat)
    requires i < |S.Exec(c, steps).sessions|
    ensures var x := S.Exec(c, steps).sessions[i];
            forall k :: 0 <= k < |x.frames| ==> For(PayloadOf(x.frames[k]), x.id.addr) && GoodFrame(x.frames[k])
  {
    ServerTraffic.EveryRunDownlink(c, steps);
    var s := S.Exec(c, steps);
    var x := s.sessions[i];
    var enqueued := EnqueuedTo(s.outcomes, i);
    assert DownlinkOk(x, enqueued);
    forall k | 0 <= k < |x.frames|
      ensures For(PayloadOf(x.frames[k]), x.id.addr) && GoodFrame(x.frames[k])
    {
      assert Payloads(x.frames)[k] == enqueued[k];
    }
  }
}
