/** The documented rule that no packet exceeds the negotiated MTU, in each direction: where the
    code keeps it, and runs from the initial state where it does not. */
module NegotiatedMtu {
  import opened Prelude
  import opened Frame
  import opened ServerTraffic
  import opened Runs
  import opened ServerUplink
  import opened Negotiation
  import S = ServerMachine
  import C = ClientMachine
  import E = EndToEnd

  // ----- Client to server -----

  /** The server's own check (server.go:234) enforces the negotiated MTU exactly when the client
      did not ask for less than the server's. */
  lemma CheckEnforcesTheNegotiatedMtuExactlyWhen(a: Addr, mtu: int, hello: int)
    requires ValidMtu(mtu) && ValidMtu(hello)
    ensures (forall raw, p :: S.ServerAccepts(raw, a, mtu) == Some(p) ==> |p| <= Min(mtu, hello)) <==> mtu <= hello
  {
    forall raw, p | S.ServerAccepts(raw, a, mtu) == Some(p)
      ensures |p| <= mtu
    {
      AcceptedIsGenuine(raw, a, mtu, p);
    }
    if hello < mtu {
      var p := Padded(a, 0, mtu);
      var raw := FrameOf(p);
      AcceptsExactlyGenuine(raw, a, mtu, p);
      assert S.ServerAccepts(raw, a, mtu) == Some(p);
    }
  }

  /** The k-th device write is longer than the MTU its session negotiated. */
  ghost predicate Overlong(s: S.State, k: nat) {
    k < |s.tun| && s.tun[k].0 < |s.sessions| && |s.tun[k].1| > s.sessions[s.tun[k].0].mtu
  }

  /** Over every run: a device write within the server's MTU is longer than its session's only
      if that session's HELLO asked for less than the server's MTU. */
  lemma OverlongWritesComeFromSmallerMtus(c: S.Conf, steps: seq<S.Step>, k: nat) returns (h: nat)
    requires k < |S.Exec(c, steps).tun|
    ensures var s := S.Exec(c, steps);
            && h < |steps| && Accepts(c, steps[h])
            && s.tun[k].0 < |s.sessions|
            && s.sessions[s.tun[k].0].mtu == Min(c.mtu, steps[h].hello.value.mtu)
            && (Overlong(s, k) ==> steps[h].hello.value.mtu < |s.tun[k].1| <= c.mtu)
  {
    DeviceLogIsGenuine(c, steps, k);
    h := EverySessionWasNegotiated(c, steps, S.Exec(c, steps).tun[k].0);
  }

  /** A run whose first step is this handshake injects a packet over the MTU it negotiated. */
  ghost predicate Breaks(c: S.Conf, digest: Digest, hello: S.Hello, steps: seq<S.Step>) {
    |steps| > 0 && steps[0] == S.Connect(Some(digest), Some(hello), true) && Overlong(S.Exec(c, steps), 0)
    && S.Exec(c, steps).tun[0].0 == 0 && S.Exec(c, steps).sessions[0].mtu == Min(c.mtu, hello.mtu)
  }

  /** Some run breaks the rule for a handshake's session if and only if that handshake asked for
      less than the server's MTU. */
  lemma UplinkRuleBreaksExactlyForSmallerMtus(c: S.Conf, digest: Digest, hello: S.Hello)
    requires Servable(c, digest, hello) && ValidMtu(c.mtu)
    ensures (exists steps :: Breaks(c, digest, hello, steps)) <==> hello.mtu < c.mtu
  {
    if steps :| Breaks(c, digest, hello, steps) {
      DeviceLogIsGenuine(c, steps, 0);
    }
    if hello.mtu < c.mtu {
      var before := Establish(c, digest, hello);
      var p := Padded(c.ident[digest].addr, 0, c.mtu);
      var raw := FrameOf(p);
      AcceptsExactlyGenuine(raw, c.ident[digest].addr, c.mtu, p);
      var steps := Receives(c, before, 0, raw, p);
      steps := InjectsItsMessage(c, steps, 0, raw, p);
      assert steps[0] == before[0];
      assert Overlong(S.Exec(c, steps), 0);
      assert Breaks(c, digest, hello, steps);
    }
  }

  // ----- Server to client -----

  /** A client session that reads one frame: it delivers the packet if the checks pass, and
      otherwise leaves and ends. */
  lemma Reads(cc: C.Conf, raw: seq<Byte>) returns (steps: seq<C.Step>)
    ensures var t := C.Exec(cc, steps);
            && |t.sessions| == 1 && t.sessions[0].received == [raw]
            && match C.ClientAccepts(cc, raw)
               case Some(p) => t.device == [(0, p)] && !t.sessions[0].cancelled
               case None => t.device == [] && t.sessions[0].cancelled && t.sessions[0].receiver == C.Left && !t.running
  {
    C.ExecOneMore(cc, [], C.Start);
    steps := [] + [C.Start];
    var idle := C.Session(false, C.Idle, C.Receiving, []);
    assert C.Exec(cc, []) == C.INITIAL;
    assert C.Exec(cc, steps) == C.INITIAL.(running := true, sessions := [idle]);
    ReceiveSteps(cc, C.Exec(cc, steps), 0, raw);
    C.ExecOneMore(cc, steps, C.Receiver(0, C.Receive(Some(raw))));
    steps := steps + [C.Receiver(0, C.Receive(Some(raw)))];
    ReceiveSteps(cc, C.Exec(cc, steps), 0, raw);
    var last := if C.ClientAccepts(cc, raw).Some? then C.Receiver(0, C.Inject(true)) else C.End;
    C.ExecOneMore(cc, steps, last);
    steps := steps + [last];
  }

  /** For every handshake and every valid packet for its address, of any length, there is a run
      from the start in which the session carries the packet; and its client, which reads that
      frame, delivers it if it is within the negotiated MTU and loses the session otherwise. */
  lemma AnyLengthIsCarried(c: S.Conf, digest: Digest, hello: S.Hello, p: Packet)
    returns (steps: seq<S.Step>, clientSteps: seq<C.Step>)
    requires Servable(c, digest, hello) && For(p, c.ident[digest].addr)
    ensures var s, mtu := S.Exec(c, steps), Min(c.mtu, hello.mtu);
            var t := C.Exec(C.Conf(c.ident[digest].addr, mtu), clientSteps);
            && |s.sessions| == 1 == |t.sessions|
            && s.sessions[0].mtu == mtu && s.sessions[0].id == c.ident[digest]
            && Payloads(s.sessions[0].frames) == [p] && t.sessions[0].received == s.sessions[0].frames
            && t.device == (if |p| <= mtu then [(0, p)] else [])
            && (t.sessions[0].cancelled <==> |p| > mtu)
  {
    var raw := FrameOf(p);
    var before := Establish(c, digest, hello);
    steps := Carries(c, before, 0, p, raw);
    assert S.Exec(c, steps).sessions == [Established(c, digest, hello).sessions[0].(frames := [] + [raw])];
    var cc := C.Conf(c.ident[digest].addr, Min(c.mtu, hello.mtu));
    E.DispatchedPacketsPassExactlyWhenTheyFit(cc, p, raw);
    clientSteps := Reads(cc, raw);
  }

  /** So the rule breaks for every handshake: some run carries a packet longer than the MTU that
      was negotiated, and than any MTU that can be. */
  lemma DownlinkRuleBreaksForEveryMtu(c: S.Conf, digest: Digest, hello: S.Hello)
    returns (steps: seq<S.Step>, clientSteps: seq<C.Step>)
    requires Servable(c, digest, hello) && ValidMtu(c.mtu)
    ensures var s := S.Exec(c, steps);
            && |s.sessions| == 1 && s.sessions[0].mtu == Min(c.mtu, hello.mtu) <= 1500
            && |s.sessions[0].frames| == 1 && |PayloadOf(s.sessions[0].frames[0])| > s.sessions[0].mtu
    ensures var t := C.Exec(C.Conf(c.ident[digest].addr, Min(c.mtu, hello.mtu)), clientSteps);
            |t.sessions| == 1 && t.sessions[0].cancelled && t.sessions[0].received == S.Exec(c, steps).sessions[0].frames && t.device == []
  {
    var p := Padded(0, c.ident[digest].addr, 1501);
    steps, clientSteps := AnyLengthIsCarried(c, digest, hello, p);
    assert Payloads(S.Exec(c, steps).sessions[0].frames)[0] == p;
  }
}
