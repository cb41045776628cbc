/** Runs in which a reconnecting client's packets change order, in either direction: an old
    session, cancelled with a message already read, writes it behind its successor's. */
module Overtaking {
  import opened Prelude
  import opened Frame
  import opened ServerUplink
  import opened Runs
  import opened UplinkReconnects
  import S = ServerMachine
  import C = ClientMachine
  import D = ClientDownlink
  import T = ClientTraffic
  import DownlinkReconnects
  import opened ServerTraffic

  // ----- The server -----

  /** A second handshake of the same client displaces and cancels the first session. */
  lemma Displaces(c: S.Conf, before: seq<S.Step>, digest: Digest, hello: S.Hello, x: S.Session) returns (steps: seq<S.Step>)
    requires Servable(c, digest, hello) && x.id == c.ident[digest]
    requires S.Exec(c, before).sessions == [x] && S.Exec(c, before).peers == map[x.id.addr := 0]
    ensures var n := S.NewSession(c, digest, hello);
            S.Exec(c, steps).sessions == [x.(cancelled := true), n.(pc := S.Checking, writer := S.Idle)]
    ensures var s, t := S.Exec(c, before), S.Exec(c, steps);
            t.tun == s.tun && t.outcomes == s.outcomes && t.loop == s.loop && t.peers == map[x.id.addr := 1]
  {
    var n := S.NewSession(c, digest, hello);
    S.ExecOneMore(c, before, S.Connect(Some(digest), Some(hello), true));
    steps := before + [S.Connect(Some(digest), Some(hello), true)];
    assert S.Exec(c, steps).sessions == [x, n];
    S.ExecOneMore(c, steps, S.Handler(1, S.RegisterLocked));
    steps := steps + [S.Handler(1, S.RegisterLocked)];
    assert S.Exec(c, steps).sessions == [x, n.(pc := S.Locked(Some(0)))];
    S.ExecOneMore(c, steps, S.Handler(1, S.RegisterEffect));
    steps := steps + [S.Handler(1, S.RegisterEffect)];
    assert S.Exec(c, steps).sessions == [x.(cancelled := true), n.(pc := S.Accepting)];
    steps := Local(c, steps, 1, S.RegisterAccept, n.(pc := S.Checking, writer := S.Idle), None);
  }

  /** The server's run: the first session reads its message, the second displaces it and injects
      its own, then the first injects. */
  lemma OvertakingRun(c: S.Conf, digest: Digest, hello: S.Hello, p: Packet, raw: seq<Byte>, q: Packet, raw': seq<Byte>)
    returns (steps: seq<S.Step>)
    requires Servable(c, digest, hello)
    requires S.ServerAccepts(raw, c.ident[digest].addr, c.mtu) == Some(p) && S.ServerAccepts(raw', c.ident[digest].addr, c.mtu) == Some(q)
    ensures var s := S.Exec(c, steps);
            && |s.sessions| == 2 && s.sessions[0].id == s.sessions[1].id == c.ident[digest]
            && s.sessions[0].received == [raw] && s.sessions[1].received == [raw']
            && s.tun == [(1, q), (0, p)]
  {
    var x := Established(c, digest, hello).sessions[0];
    steps := Establish(c, digest, hello);
    steps := Receives(c, steps, 0, raw, p);
    var y := x.(pc := S.Validating(raw), received := x.received + [raw]);
    assert S.Exec(c, steps).sessions == [y];
    steps := Displaces(c, steps, digest, hello, y);
    steps := Receives(c, steps, 1, raw', q);
    steps := InjectsItsMessage(c, steps, 1, raw', q);
    steps := InjectsItsMessage(c, steps, 0, raw, p);
  }

  // ----- The client -----

  /** The reader accepts a packet and puts it. */
  lemma Accepts(cc: C.Conf, before: seq<C.Step>, p: Packet) returns (steps: seq<C.Step>)
    requires T.Conforming(cc, p)
    requires var s := C.Exec(cc, before); s.reader == C.Reading && |s.queue| < C.OUTBOUND_CAPACITY
    ensures var s := C.Exec(cc, before); C.Exec(cc, steps) == s.(put := s.put + [p], queue := s.queue + [p])
  {
    assert p[..|p|] == p;
    C.ExecOneMore(cc, before, C.Reader(C.Read(|p|, p)));
    steps := before + [C.Reader(C.Read(|p|, p))];
    C.ExecOneMore(cc, steps, C.Reader(C.PutPacket));
    steps := steps + [C.Reader(C.PutPacket)];
  }

  /** A session starts, sends the packet at the head of the queue, loses its writer and ends. */
  lemma Sends(cc: C.Conf, before: seq<C.Step>, p: Packet, raw: seq<Byte>) returns (steps: seq<C.Step>)
    requires var s := C.Exec(cc, before); !s.running && !s.done && s.queue != [] && s.queue[0] == p
    requires Encoded(TYPE_PACKET, 0, p) == Success(raw)
    ensures var s := C.Exec(cc, before); var i := |s.sessions|;
            C.Exec(cc, steps) == s.(
              taken := s.taken + 1, queue := s.queue[1..], wire := s.wire + [C.Sent(i, s.taken, raw)],
              sessions := s.sessions + [C.Session(true, C.Exited(None), C.Receiving, [])])
  {
    var s := C.Exec(cc, before);
    var i := |s.sessions|;
    C.ExecOneMore(cc, before, C.Start);
    steps := before + [C.Start];
    C.ExecOneMore(cc, steps, C.Writer(i, C.Take));
    steps := steps + [C.Writer(i, C.Take)];
    var held := C.Session(false, C.Holding(s.taken, p), C.Receiving, []);
    var s2 := s.(running := true, taken := s.taken + 1, queue := s.queue[1..], sessions := s.sessions + [held]);
    assert C.Exec(cc, steps) == s2;
    C.ExecOneMore(cc, steps, C.Writer(i, C.Write(true)));
    steps := steps + [C.Writer(i, C.Write(true))];
    var s3 := s2.(sessions := s.sessions + [held.(writer := C.Idle)], wire := s.wire + [C.Sent(i, s.taken, raw)]);
    assert C.Exec(cc, steps) == s3;
    C.ExecOneMore(cc, steps, C.Writer(i, C.Stop));
    steps := steps + [C.Writer(i, C.Stop)];
    assert C.Exec(cc, steps) == s3.(sessions := s.sessions + [held.(writer := C.Exited(None))]);
    C.ExecOneMore(cc, steps, C.End);
    steps := steps + [C.End];
  }

  /** The client's run: two packets put, and each sent by a session of its own. */
  lemma TwoSessions(cc: C.Conf, p: Packet, raw: seq<Byte>, q: Packet, raw': seq<Byte>) returns (steps: seq<C.Step>)
    requires T.Conforming(cc, p) && T.Conforming(cc, q)
    requires Encoded(TYPE_PACKET, 0, p) == Success(raw) && Encoded(TYPE_PACKET, 0, q) == Success(raw')
    ensures var t := C.Exec(cc, steps);
            t.put == [p, q] && D.SentBy(t.wire, 0) == [raw] && D.SentBy(t.wire, 1) == [raw']
  {
    steps := Accepts(cc, [], p);
    assert C.Exec(cc, steps) == C.INITIAL.(put := [p], queue := [p]);
    steps := Accepts(cc, steps, q);
    assert C.Exec(cc, steps) == C.INITIAL.(put := [p, q], queue := [p, q]);
    steps := Sends(cc, steps, p, raw);
    assert C.Exec(cc, steps).wire == [C.Sent(0, 0, raw)] && C.Exec(cc, steps).queue == [q];
    steps := Sends(cc, steps, q, raw');
    assert C.Exec(cc, steps).wire == [C.Sent(0, 0, raw), C.Sent(1, 1, raw')];
    Shares(raw, raw');
  }

  lemma Shares(raw: seq<Byte>, raw': seq<Byte>)
    ensures var wire := [C.Sent(0, 0, raw), C.Sent(1, 1, raw')]; D.SentBy(wire, 0) == [raw] && D.SentBy(wire, 1) == [raw']
  {
    var wire := [C.Sent(0, 0, raw), C.Sent(1, 1, raw')];
    var first := wire[..1];
    assert first == [C.Sent(0, 0, raw)] && first[..0] == [];
    assert D.SentBy(first[..0], 0) == [] && D.SentBy(first[..0], 1) == [];
    assert D.SentBy(first, 0) == [raw] && D.SentBy(first, 1) == [];
  }

  // ----- Both -----

  /** For every server, token and HELLO, and any two packets of the client, there are runs of both
      ends, linked session by session, in which both packets are injected and the second comes
      first. */
  lemma ReconnectsCanReorder(c: S.Conf, digest: Digest, hello: S.Hello, p: Packet, q: Packet)
    returns (steps: seq<S.Step>, clientSteps: seq<C.Step>)
    requires Servable(c, digest, hello)
    requires var cc := C.Conf(c.ident[digest].addr, Min(c.mtu, hello.mtu)); T.Conforming(cc, p) && T.Conforming(cc, q)
    ensures var cc, link := C.Conf(c.ident[digest].addr, Min(c.mtu, hello.mtu)), map[0 := 0, 1 := 1];
            var s, t := S.Exec(c, steps), C.Exec(cc, clientSteps);
            && Linked(c, s, cc, t, link) && t.put == [p, q] && s.tun == [(1, q), (0, p)]
            && !InOrder(s, t, link) && !NoneOvertaken(s, link)
  {
    var cc := C.Conf(c.ident[digest].addr, Min(c.mtu, hello.mtu));
    var raw := FrameOf(p);
    var raw' := FrameOf(q);
    AcceptsExactlyGenuine(raw, cc.address, c.mtu, p);
    AcceptsExactlyGenuine(raw', cc.address, c.mtu, q);
    steps := OvertakingRun(c, digest, hello, p, raw, q, raw');
    clientSteps := TwoSessions(cc, p, raw, q, raw');
    LateInjectionIsOutOfOrder(c, steps, cc, clientSteps, p, q);
  }

  lemma LateInjectionIsOutOfOrder(c: S.Conf, steps: seq<S.Step>, cc: C.Conf, clientSteps: seq<C.Step>, p: Packet, q: Packet)
    requires var link := map[0 := 0, 1 := 1]; var s := S.Exec(c, steps);
             Linked(c, s, cc, C.Exec(cc, clientSteps), link) && s.tun == [(1, q), (0, p)]
    ensures var link := map[0 := 0, 1 := 1]; var s := S.Exec(c, steps);
            !InOrder(s, C.Exec(cc, clientSteps), link) && !NoneOvertaken(s, link)
  {
    var link: map<nat, nat> := map[0 := 0, 1 := 1];
    assert Injection(S.Exec(c, steps), link, 0) && Injection(S.Exec(c, steps), link, 1);
    OrderHoldsExactlyWhenNoneIsOvertaken(c, steps, cc, clientSteps, link);
  }

  // ----- Server to client -----

  /** Two server sessions of one client, each of which carried one packet. */
  lemma CarryOneEach(c: S.Conf, digest: Digest, hello: S.Hello, p: Packet, raw: seq<Byte>, q: Packet, raw': seq<Byte>)
    returns (steps: seq<S.Step>)
    requires Servable(c, digest, hello) && For(p, c.ident[digest].addr) && For(q, c.ident[digest].addr)
    requires Frames(p, raw) && Frames(q, raw')
    ensures var s := S.Exec(c, steps);
            && |s.sessions| == 2 && s.sessions[0].id == s.sessions[1].id == c.ident[digest]
            && s.sessions[0].frames == [raw] && s.sessions[1].frames == [raw']
            && s.outcomes == [S.Enqueued(p, 0), S.Enqueued(q, 1)]
  {
    var x := Established(c, digest, hello).sessions[0];
    steps := Establish(c, digest, hello);
    steps := Carries(c, steps, 0, p, raw);
    assert S.Exec(c, steps).sessions == [x.(frames := x.frames + [raw])];
    steps := Displaces(c, steps, digest, hello, x.(frames := x.frames + [raw]));
    steps := Carries(c, steps, 1, q, raw');
  }

  /** The client's first session reads a packet and ends before delivering it; its second one
      delivers its own; then the first delivers. */
  lemma DeliverLate(cc: C.Conf, p: Packet, raw: seq<Byte>, q: Packet, raw': seq<Byte>) returns (steps: seq<C.Step>)
    requires C.ClientAccepts(cc, raw) == Some(p) && C.ClientAccepts(cc, raw') == Some(q)
    ensures var t := C.Exec(cc, steps);
            && |t.sessions| == 2 && t.sessions[0].received == [raw] && t.sessions[1].received == [raw']
            && t.device == [(1, q), (0, p)]
  {
    var idle := C.Session(false, C.Idle, C.Receiving, []);
    C.ExecOneMore(cc, [], C.Start);
    steps := [] + [C.Start];
    assert C.Exec(cc, []) == C.INITIAL;
    assert C.Exec(cc, steps) == C.INITIAL.(running := true, sessions := [idle]);
    ReceiveSteps(cc, C.Exec(cc, steps), 0, raw);
    C.ExecOneMore(cc, steps, C.Receiver(0, C.Receive(Some(raw))));
    steps := steps + [C.Receiver(0, C.Receive(Some(raw)))];
    var read := C.Session(false, C.Idle, C.Injecting(p), idle.received + [raw]);
    assert C.Exec(cc, steps) == C.INITIAL.(running := true, sessions := [read]);
    steps := Replaces(cc, steps, read);
    ReceiveSteps(cc, C.Exec(cc, steps), 1, raw');
    C.ExecOneMore(cc, steps, C.Receiver(1, C.Receive(Some(raw'))));
    steps := steps + [C.Receiver(1, C.Receive(Some(raw')))];
    ReceiveSteps(cc, C.Exec(cc, steps), 1, raw');
    C.ExecOneMore(cc, steps, C.Receiver(1, C.Inject(true)));
    steps := steps + [C.Receiver(1, C.Inject(true))];
    ReceiveSteps(cc, C.Exec(cc, steps), 0, raw);
    C.ExecOneMore(cc, steps, C.Receiver(0, C.Inject(true)));
    steps := steps + [C.Receiver(0, C.Inject(true))];
  }

  /** The running session's writer stops, the session ends, and another starts. */
  lemma Replaces(cc: C.Conf, before: seq<C.Step>, x: C.Session) returns (steps: seq<C.Step>)
    requires var s := C.Exec(cc, before); s.running && s.sessions == [x]
    requires x.writer == C.Idle
    ensures var s := C.Exec(cc, before);
            C.Exec(cc, steps) == s.(sessions := [x.(cancelled := true, writer := C.Exited(None)), C.Session(false, C.Idle, C.Receiving, [])])
  {
    var s := C.Exec(cc, before);
    C.ExecOneMore(cc, before, C.Writer(0, C.Stop));
    steps := before + [C.Writer(0, C.Stop)];
    assert C.Exec(cc, steps) == s.(sessions := [x.(writer := C.Exited(None))]);
    C.ExecOneMore(cc, steps, C.End);
    steps := steps + [C.End];
    assert C.Exec(cc, steps) == s.(running := false, sessions := [x.(cancelled := true, writer := C.Exited(None))]);
    C.ExecOneMore(cc, steps, C.Start);
    steps := steps + [C.Start];
  }

  /** For every server, token and HELLO, and any two packets for the client within its MTU, there
      are runs of both ends, linked session by session, in which both packets are delivered and
      the second comes first. */
  lemma ReconnectsCanReorderDeliveries(c: S.Conf, digest: Digest, hello: S.Hello, p: Packet, q: Packet)
    returns (steps: seq<S.Step>, clientSteps: seq<C.Step>)
    requires Servable(c, digest, hello)
    requires var cc := C.Conf(c.ident[digest].addr, Min(c.mtu, hello.mtu)); D.Deliverable(cc, p) && D.Deliverable(cc, q)
    ensures var cc, link := C.Conf(c.ident[digest].addr, Min(c.mtu, hello.mtu)), map[0 := 0, 1 := 1];
            var s, t := S.Exec(c, steps), C.Exec(cc, clientSteps);
            && DownlinkReconnects.Linked(s, cc, t, link)
            && s.outcomes == [S.Enqueued(p, 0), S.Enqueued(q, 1)] && t.device == [(1, q), (0, p)]
            && !DownlinkReconnects.InOrder(s, t, link) && !DownlinkReconnects.NoneOvertaken(s, t, link)
  {
    var cc := C.Conf(c.ident[digest].addr, Min(c.mtu, hello.mtu));
    var raw := FrameOf(p);
    var raw' := FrameOf(q);
    D.ClientAcceptsExactlyDeliverable(cc, raw, p);
    D.ClientAcceptsExactlyDeliverable(cc, raw', q);
    steps := CarryOneEach(c, digest, hello, p, raw, q, raw');
    clientSteps := DeliverLate(cc, p, raw, q, raw');
    LateDeliveryIsOutOfOrder(c, steps, cc, clientSteps, p, q);
  }

  lemma LateDeliveryIsOutOfOrder(c: S.Conf, steps: seq<S.Step>, cc: C.Conf, clientSteps: seq<C.Step>, p: Packet, q: Packet)
    requires var link := map[0 := 0, 1 := 1]; var s, t := S.Exec(c, steps), C.Exec(cc, clientSteps);
             && DownlinkReconnects.Linked(s, cc, t, link)
             && s.outcomes == [S.Enqueued(p, 0), S.Enqueued(q, 1)] && t.device == [(1, q), (0, p)]
    ensures var link := map[0 := 0, 1 := 1]; var s, t := S.Exec(c, steps), C.Exec(cc, clientSteps);
            !DownlinkReconnects.InOrder(s, t, link) && !DownlinkReconnects.NoneOvertaken(s, t, link)
  {
    var link: map<nat, nat> := map[0 := 0, 1 := 1];
    var t := C.Exec(cc, clientSteps);
    assert DownlinkReconnects.Delivery(t, link, 0) && DownlinkReconnects.Delivery(t, link, 1);
    DownlinkReconnects.DeliveriesHavePositions(c, steps, cc, clientSteps, link, 0);
    DownlinkReconnects.DeliveriesHavePositions(c, steps, cc, clientSteps, link, 1);
    DownlinkReconnects.OrderHoldsExactlyWhenNoneIsOvertaken(c, steps, cc, clientSteps, link);
  }
}
