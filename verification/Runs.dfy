/** Building blocks for runs of either end from its initial state. */
module Runs {
  import opened Prelude
  import opened Ipv4
  import opened Frame
  import opened ServerTraffic
  import HubSpec
  import S = ServerMachine
  import C = ClientMachine

  // ----- Packets -----

  /** A packet of any length an IPv4 datagram can have, from and to given addresses. */
  lemma Padded(src: Addr, dst: Addr, n: nat) returns (p: Packet)
    requires 20 <= n <= 65535
    ensures WellFormed(p) && |p| == n && Source(p) == src && Destination(p) == dst
  {
    var d := Datagram(0, 0, 0, 64, 17, 0, src, dst, [], seq(n - 20, _ => 0));
    SerializedDatagramsPass(d);
    p := d.Serialize();
  }

  predicate Frames(p: Packet, raw: seq<Byte>) { Encoded(TYPE_PACKET, 0, p) == Success(raw) }

  lemma FrameOf(p: Packet) returns (raw: seq<Byte>)
    requires WellFormed(p)
    ensures Frames(p, raw) && PayloadOf(raw) == p
  {
    AcceptsExactlyDatagrams(p);
    PacketsAreFramed(p);
    raw := Encoded(TYPE_PACKET, 0, p).value;
  }

  // ----- A session is established -----

  predicate Servable(c: S.Conf, digest: Digest, hello: S.Hello) {
    digest in c.ident && c.maxClients >= 1 && hello.Acceptable()
  }

  /** One session, registered and between messages. */
  function Established(c: S.Conf, digest: Digest, hello: S.Hello): S.State
    requires digest in c.ident
  {
    var x := S.NewSession(c, digest, hello);
    S.INITIAL.(
      sessions := [x.(pc := S.Checking, writer := S.Idle)],
      peers := map[x.id.addr := 0],
      counters := S.INITIAL.counters.(active := 1, accepted := 1),
      history := [HubSpec.Registered(x.id.addr, 0)])
  }

  lemma Establish(c: S.Conf, digest: Digest, hello: S.Hello) returns (steps: seq<S.Step>)
    requires Servable(c, digest, hello)
    ensures S.Exec(c, steps) == Established(c, digest, hello)
    ensures |steps| > 0 && steps[0] == S.Connect(Some(digest), Some(hello), true)
  {
    var x := S.NewSession(c, digest, hello);
    var s1 := S.INITIAL.(sessions := [x]);
    steps := [S.Connect(Some(digest), Some(hello), true)];
    S.ExecOneMore(c, [], steps[0]);
    assert [] + steps == steps;
    assert S.Exec(c, steps) == s1;
    S.ExecOneMore(c, steps, S.Handler(0, S.RegisterLocked));
    steps := steps + [S.Handler(0, S.RegisterLocked)];
    var s2 := s1.(sessions := [x.(pc := S.Locked(None))], peers := map[x.id.addr := 0], history := [HubSpec.Registered(x.id.addr, 0)]);
    assert S.Exec(c, steps) == s2;
    S.ExecOneMore(c, steps, S.Handler(0, S.RegisterEffect));
    steps := steps + [S.Handler(0, S.RegisterEffect)];
    assert S.Exec(c, steps) == s2.(sessions := [x.(pc := S.Accepting)], counters := s2.counters.(active := 1));
    S.ExecOneMore(c, steps, S.Handler(0, S.RegisterAccept));
    steps := steps + [S.Handler(0, S.RegisterAccept)];
    assert S.Exec(c, steps) == Established(c, digest, hello);
  }

  // ----- Messages from the client -----

  /** A step of a handler that concerns its own session, whatever the counters. */
  lemma Local(c: S.Conf, before: seq<S.Step>, i: nat, h: S.HandlerStep, y: S.Session, written: Option<Packet>) returns (steps: seq<S.Step>)
    requires i < |S.Exec(c, before).sessions| && !S.TouchesRegistry(h)
    requires forall k :: S.LocalStep(c, S.Exec(c, before).sessions[i], k, h) == S.Effect(y, written, S.LocalStep(c, S.Exec(c, before).sessions[i], k, h).counters)
    ensures var s, t := S.Exec(c, before), S.Exec(c, steps);
            && t.sessions == s.sessions[i := y] && t.tun == S.Log(s.tun, i, written) && t.peers == s.peers
            && t.outcomes == s.outcomes && t.loop == s.loop
    ensures before <= steps
  {
    steps := before + [S.Handler(i, h)];
    S.ExecOneMore(c, before, S.Handler(i, h));
  }

  lemma MessageEffects(c: S.Conf, x: S.Session, k: S.Counters, raw: seq<Byte>, p: Packet)
    requires S.ServerAccepts(raw, x.id.addr, c.mtu) == Some(p)
    ensures x.pc == S.Checking && !x.cancelled && !x.writer.Stopped? ==>
              S.LocalStep(c, x, k, S.Check) == S.Effect(x.(pc := S.Reading), None, k)
    ensures x.pc == S.Reading ==>
              S.LocalStep(c, x, k, S.Receive(Some(raw))) ==
              S.Effect(x.(pc := S.Validating(raw), received := x.received + [raw]), None, k)
    ensures x.pc == S.Validating(raw) ==> S.LocalStep(c, x, k, S.Validate) == S.Effect(x.(pc := S.Injecting(p)), None, k)
    ensures x.pc == S.Injecting(p) ==>
              S.LocalStep(c, x, k, S.Inject(true)) == S.Effect(x.(pc := S.Tallying(p)), Some(p), k)
  {}

  /** A session that has just looked at its context reads a message. */
  lemma Receives(c: S.Conf, before: seq<S.Step>, i: nat, raw: seq<Byte>, p: Packet) returns (steps: seq<S.Step>)
    requires i < |S.Exec(c, before).sessions|
    requires var x := S.Exec(c, before).sessions[i];
             x.pc == S.Checking && !x.cancelled && !x.writer.Stopped? && S.ServerAccepts(raw, x.id.addr, c.mtu) == Some(p)
    ensures var s, t := S.Exec(c, before), S.Exec(c, steps); var x := s.sessions[i];
            && t.sessions == s.sessions[i := x.(pc := S.Validating(raw), received := x.received + [raw])]
            && t.tun == s.tun && t.peers == s.peers
    ensures before <= steps
  {
    var x := S.Exec(c, before).sessions[i];
    forall k ensures S.LocalStep(c, x, k, S.Check) == S.Effect(x.(pc := S.Reading), None, k) {
      MessageEffects(c, x, k, raw, p);
    }
    steps := Local(c, before, i, S.Check, x.(pc := S.Reading), None);
    var y := x.(pc := S.Validating(raw), received := x.received + [raw]);
    forall k ensures S.LocalStep(c, x.(pc := S.Reading), k, S.Receive(Some(raw))) == S.Effect(y, None, k) {
      MessageEffects(c, x.(pc := S.Reading), k, raw, p);
    }
    steps := Local(c, steps, i, S.Receive(Some(raw)), y, None);
  }

  /** A session with a message in hand injects it, whether or not it was cancelled meanwhile. */
  lemma InjectsItsMessage(c: S.Conf, before: seq<S.Step>, i: nat, raw: seq<Byte>, p: Packet) returns (steps: seq<S.Step>)
    requires i < |S.Exec(c, before).sessions|
    requires var x := S.Exec(c, before).sessions[i];
             x.pc == S.Validating(raw) && S.ServerAccepts(raw, x.id.addr, c.mtu) == Some(p)
    ensures var s, t := S.Exec(c, before), S.Exec(c, steps);
            && t.sessions == s.sessions[i := s.sessions[i].(pc := S.Tallying(p))]
            && t.tun == s.tun + [(i, p)] && t.peers == s.peers
    ensures before <= steps
  {
    var x := S.Exec(c, before).sessions[i];
    forall k ensures S.LocalStep(c, x, k, S.Validate) == S.Effect(x.(pc := S.Injecting(p)), None, k) {
      MessageEffects(c, x, k, raw, p);
    }
    steps := Local(c, before, i, S.Validate, x.(pc := S.Injecting(p)), None);
    var y := x.(pc := S.Injecting(p));
    forall k ensures S.LocalStep(c, y, k, S.Inject(true)) == S.Effect(y.(pc := S.Tallying(p)), Some(p), k) {
      MessageEffects(c, y, k, raw, p);
    }
    steps := Local(c, steps, i, S.Inject(true), y.(pc := S.Tallying(p)), Some(p));
  }

  // ----- Packets to the client -----

  /** The steps of a packet for one session, through packetLoop and the write loop. */
  lemma PacketSteps(c: S.Conf, s: S.State, i: nat, p: Packet, raw: seq<Byte>)
    requires i < |s.sessions| && For(p, s.sessions[i].id.addr) && Frames(p, raw)
    ensures var x := s.sessions[i];
            s.loop == S.LookingUp(p) && x.id.addr in s.peers && s.peers[x.id.addr] == i ==>
              S.Next(c, s, S.Loop(S.Lookup)) == s.(loop := S.Sending(i, p))
    ensures var x := s.sessions[i];
            s.loop == S.Sending(i, p) && x.queue == [] ==>
              S.Next(c, s, S.Loop(S.Send)) ==
              s.(sessions := s.sessions[i := x.(queue := [p])], loop := S.ReadingTun, outcomes := s.outcomes + [S.Enqueued(p, i)])
    ensures var x := s.sessions[i];
            x.queue == [p] && x.writer == S.Idle ==>
              S.Next(c, s, S.Writer(i, S.Take)) == s.(sessions := s.sessions[i := x.(queue := [], writer := S.Holding(p))])
    ensures var x := s.sessions[i];
            x.writer == S.Holding(p) && !x.cancelled ==>
              S.Next(c, s, S.Writer(i, S.Write(true))) ==
              s.(sessions := s.sessions[i := x.(writer := S.Idle, frames := x.frames + [raw])])
  {
    var x := s.sessions[i];
    assert x.queue == [] ==> x.queue + [p] == [p];
    assert x.queue == [p] ==> x.queue[1..] == [];
  }

  lemma ReadStep(c: S.Conf, s: S.State, p: Packet) returns (step: S.Step)
    requires s.loop == S.ReadingTun && WellFormed(p)
    ensures var t := S.Next(c, s, step);
            t.loop == S.LookingUp(p) && t.sessions == s.sessions && t.peers == s.peers && t.outcomes == s.outcomes
  {
    AcceptsExactlyDatagrams(p);
    var buffer := p + seq(MAX_PACKET_SIZE - |p|, _ => 0);
    assert buffer[..|p|] == p;
    step := S.Loop(S.TunRead(|p|, buffer));
  }

  /** What packetLoop and the write loop make of any valid packet for the owner of its address. */
  lemma Carries(c: S.Conf, before: seq<S.Step>, i: nat, p: Packet, raw: seq<Byte>) returns (steps: seq<S.Step>)
    requires i < |S.Exec(c, before).sessions| && S.Exec(c, before).loop == S.ReadingTun
    requires var s := S.Exec(c, before); var x := s.sessions[i];
             && x.writer == S.Idle && !x.cancelled && x.queue == []
             && x.id.addr in s.peers && s.peers[x.id.addr] == i && For(p, x.id.addr) && Frames(p, raw)
    ensures var s := S.Exec(c, before); var x := s.sessions[i]; var t := S.Exec(c, steps);
            && t.sessions == s.sessions[i := x.(frames := x.frames + [raw])]
            && t.outcomes == s.outcomes + [S.Enqueued(p, i)]
            && t.peers == s.peers && t.loop == S.ReadingTun
  {
    var s := S.Exec(c, before);
    var x := s.sessions[i];
    var read := ReadStep(c, s, p);
    S.ExecOneMore(c, before, read);
    steps := before + [read];
    PacketSteps(c, S.Exec(c, steps), i, p, raw);
    S.ExecOneMore(c, steps, S.Loop(S.Lookup));
    steps := steps + [S.Loop(S.Lookup)];
    PacketSteps(c, S.Exec(c, steps), i, p, raw);
    S.ExecOneMore(c, steps, S.Loop(S.Send));
    steps := steps + [S.Loop(S.Send)];
    steps := Writes(c, steps, i, x, p, raw);
  }

  /** The write loop sends the only queued packet. */
  lemma Writes(c: S.Conf, before: seq<S.Step>, i: nat, x: S.Session, p: Packet, raw: seq<Byte>) returns (steps: seq<S.Step>)
    requires i < |S.Exec(c, before).sessions| && S.Exec(c, before).sessions[i] == x.(queue := [p])
    requires x.writer == S.Idle && !x.cancelled && x.queue == [] && For(p, x.id.addr) && Frames(p, raw)
    ensures var s := S.Exec(c, before);
            S.Exec(c, steps) == s.(sessions := s.sessions[i := x.(frames := x.frames + [raw])])
  {
    PacketSteps(c, S.Exec(c, before), i, p, raw);
    S.ExecOneMore(c, before, S.Writer(i, S.Take));
    steps := before + [S.Writer(i, S.Take)];
    PacketSteps(c, S.Exec(c, steps), i, p, raw);
    S.ExecOneMore(c, steps, S.Writer(i, S.Write(true)));
    steps := steps + [S.Writer(i, S.Write(true))];
  }

  // ----- The client's receiver -----

  lemma ReceiveSteps(cc: C.Conf, s: C.State, i: nat, raw: seq<Byte>)
    requires i < |s.sessions| && !s.done
    ensures var x := s.sessions[i];
            x.receiver == C.Receiving && !x.cancelled ==>
              var after := match C.ClientAccepts(cc, raw) case Some(p) => C.Injecting(p) case None => C.Left;
              C.Next(cc, s, C.Receiver(i, C.Receive(Some(raw)))) ==
              s.(sessions := s.sessions[i := x.(receiver := after, received := x.received + [raw])])
    ensures var x := s.sessions[i];
            x.receiver.Injecting? ==>
              C.Next(cc, s, C.Receiver(i, C.Inject(true))) ==
              s.(sessions := s.sessions[i := x.(receiver := C.Receiving)], device := s.device + [(i, x.receiver.payload)])
    ensures var x := s.sessions[i];
            x.receiver == C.Left && s.running && i == |s.sessions| - 1 ==>
              C.Next(cc, s, C.End) == s.(sessions := s.sessions[i := x.(cancelled := true)], running := false)
  {}
}
