/** The handshake across both ends: the server's sessions keep the terms of their HELLO, its
    WELCOMEs name them, and a client of one server never sees its tunnel change. */
module Negotiation {
  import opened Prelude
  import R = ClientRun
  import Routes
  import S = ServerMachine

  predicate ValidMtu(mtu: int) { 576 <= mtu <= 1500 }

  // ----- Terms -----

  predicate SameTerms(x: S.Session, y: S.Session) { y.id == x.id && y.mtu == x.mtu }

  lemma LocalKeepsTerms(c: S.Conf, x: S.Session, k: S.Counters, h: S.HandlerStep)
    ensures SameTerms(x, S.LocalStep(c, x, k, h).session)
  {}

  lemma HandlerKeepsTerms(c: S.Conf, s: S.State, j: nat, h: S.HandlerStep, i: nat)
    requires i < |s.sessions| && j < |s.sessions|
    ensures i < |S.HandlerNext(c, s, j, h).sessions| && SameTerms(s.sessions[i], S.HandlerNext(c, s, j, h).sessions[i])
  {
    S.HandlerFrame(c, s, j, h);
    if S.TouchesRegistry(h) {
      S.RegistryFrame(c, s, j, h);
    } else {
      LocalKeepsTerms(c, s.sessions[j], s.counters, h);
    }
  }

  lemma StepKeepsTerms(c: S.Conf, s: S.State, step: S.Step, i: nat)
    requires i < |s.sessions|
    ensures i < |S.Next(c, s, step).sessions| && SameTerms(s.sessions[i], S.Next(c, s, step).sessions[i])
  {
    match step
    case Handler(j, h) => if j < |s.sessions| { HandlerKeepsTerms(c, s, j, h, i); }
    case Writer(j, w) => if j < |s.sessions| { S.WriterFrame(s.sessions[j], w); }
    case Loop(l) => S.LoopFrame(s, l);
    case _ =>
  }

  /** A session never goes away, and its identity and MTU never change, however the run goes on. */
  lemma {:induction false} TermsLast(c: S.Conf, steps: seq<S.Step>, more: seq<S.Step>, i: nat)
    requires i < |S.Exec(c, steps).sessions|
    ensures var s, t := S.Exec(c, steps), S.Exec(c, steps + more);
            i < |t.sessions| && SameTerms(s.sessions[i], t.sessions[i])
  {
    if |more| == 0 {
      assert steps + more == steps;
    } else {
      var init := more[..|more| - 1];
      TermsLast(c, steps, init, i);
      assert steps + more == (steps + init) + [more[|more| - 1]];
      S.ExecOneMore(c, steps + init, more[|more| - 1]);
      StepKeepsTerms(c, S.Exec(c, steps + init), more[|more| - 1], i);
    }
  }

  /** An accepted handshake. */
  predicate Accepts(c: S.Conf, step: S.Step) {
    step.Connect? && step.digest.Some? && step.digest.value in c.ident && step.hello.Some? && step.hello.value.Acceptable()
  }

  /** Every session has the identity of an authenticated token and the smaller of the server's
      MTU and the one its HELLO asked for. */
  lemma {:induction false} EverySessionWasNegotiated(c: S.Conf, steps: seq<S.Step>, i: nat) returns (k: nat)
    requires i < |S.Exec(c, steps).sessions|
    ensures k < |steps| && Accepts(c, steps[k])
    ensures var x := S.Exec(c, steps).sessions[i];
            x.id == c.ident[steps[k].digest.value] && x.mtu == Min(c.mtu, steps[k].hello.value.mtu)
  {
    var n := |steps| - 1;
    var s := S.Exec(c, steps[..n]);
    if i < |s.sessions| {
      k := EverySessionWasNegotiated(c, steps[..n], i);
      StepKeepsTerms(c, s, steps[n], i);
    } else {
      k := n;
      OnlyHandshakesAddSessions(c, s, steps[n]);
    }
  }

  lemma OnlyHandshakesAddSessions(c: S.Conf, s: S.State, step: S.Step)
    ensures |S.Next(c, s, step).sessions| > |s.sessions| ==>
              Accepts(c, step)
              && S.Next(c, s, step).sessions == s.sessions + [S.NewSession(c, step.digest.value, step.hello.value)]
  {
    match step
    case Handler(j, h) => if j < |s.sessions| { S.HandlerFrame(c, s, j, h); }
    case Loop(l) => S.LoopFrame(s, l);
    case _ =>
  }

  // ----- WELCOME -----

  /** The WELCOME the server writes in a handshake (server.go:184), whether or not the write is
      reported to succeed. */
  function WelcomeOf(c: S.Conf, gateway: Addr, step: S.Step): Option<R.Welcome> {
    if !Accepts(c, step) then None
    else
      var x := S.NewSession(c, step.digest.value, step.hello.value);
      Some(R.Welcome(step.hello.value.sessionId, Some(x.id.addr), Some(gateway), x.mtu))
  }

  /** In every server run, an accepted handshake whose WELCOME was written leaves a session for
      good; and the valid client that reads that WELCOME agrees to it, brings up a tunnel for the
      session's address, and ends up with the session's MTU: the smaller of the two, itself
      valid. */
  lemma BothEndsAgree(c: S.Conf, steps: seq<S.Step>, k: nat, cfg: R.Config, a: R.Attempt, gateway: Addr, server: Addr)
    returns (i: nat)
    requires ValidMtu(c.mtu) && ValidMtu(cfg.mtu)
    requires k < |steps| && Accepts(c, steps[k]) && steps[k].welcomed
    requires steps[k].hello.value.mtu == cfg.mtu && steps[k].hello.value.sessionId == a.sessionId
    requires a.welcome == WelcomeOf(c, gateway, steps[k])
    ensures i < |S.Exec(c, steps).sessions| && a.Agreed() == a.welcome
    ensures var x, o := S.Exec(c, steps).sessions[i], R.OptionsFor(cfg, server, a.name, a.welcome.value);
            && x.id == c.ident[steps[k].digest.value]
            && o.address == x.id.addr && o.gateway == gateway
            && o.mtu == x.mtu == Min(c.mtu, cfg.mtu) && ValidMtu(o.mtu)
  {
    var before := S.Exec(c, steps[..k]);
    i := |before.sessions|;
    S.ExecOneMore(c, steps[..k], steps[k]);
    assert steps[..k] + [steps[k]] == steps[..k + 1];
    assert S.Exec(c, steps[..k + 1]).sessions == before.sessions + [S.NewSession(c, steps[k].digest.value, steps[k].hello.value)];
    TermsLast(c, steps[..k + 1], steps[k + 1..], i);
    assert steps[..k + 1] + steps[k + 1..] == steps;
  }

  /** A WELCOME the client agrees to, if any, is the answer of this server run to its own HELLO
      under this token. */
  ghost predicate Answered(c: S.Conf, steps: seq<S.Step>, digest: Digest, gateway: Addr, cfg: R.Config, a: R.Attempt) {
    a.Agreed().Some? ==>
      exists k :: 0 <= k < |steps| && Accepts(c, steps[k]) && steps[k].digest.value == digest
        && steps[k].hello.value.mtu == cfg.mtu && WelcomeOf(c, gateway, steps[k]) == a.welcome
  }

  /** The tunnel every such WELCOME describes. */
  predicate IsTunnel(c: S.Conf, digest: Digest, gateway: Addr, cfg: R.Config, o: Routes.Options) {
    digest in c.ident && o.address == c.ident[digest].addr && o.gateway == gateway && o.mtu == Min(c.mtu, cfg.mtu)
  }

  lemma {:induction false} AnEstablishedTunnelStays(c: S.Conf, steps: seq<S.Step>, digest: Digest, gateway: Addr, cfg: R.Config,
                                                    server: Addr, o: Routes.Options, script: seq<R.Attempt>)
    requires IsTunnel(c, digest, gateway, cfg, o)
    requires forall k :: 0 <= k < |script| ==> Answered(c, steps, digest, gateway, cfg, script[k])
    ensures R.Behaviour(cfg, server, Some(o), script).0 == R.Stopped
  {
    if script != [] {
      assert Answered(c, steps, digest, gateway, cfg, script[0]);
      AnEstablishedTunnelStays(c, steps, digest, gateway, cfg, server, o, script[1..]);
    }
  }

  /** Against one run of one server and with one token a run of the client ends only because its
      context is done or its own device cannot be brought up: never by a malformed or changed
      parameter, however often it reconnects. */
  lemma {:induction false} OneServerNeverEndsTheRun(c: S.Conf, steps: seq<S.Step>, digest: Digest, gateway: Addr, cfg: R.Config,
                                                    server: Addr, script: seq<R.Attempt>)
    requires forall k :: 0 <= k < |script| ==> Answered(c, steps, digest, gateway, cfg, script[k])
    ensures R.Behaviour(cfg, server, None, script).0 in {R.Stopped, R.OpenFailed, R.NameFailed, R.SetupFailed}
  {
    if script != [] {
      assert Answered(c, steps, digest, gateway, cfg, script[0]);
      match script[0].Agreed()
      case None => OneServerNeverEndsTheRun(c, steps, digest, gateway, cfg, server, script[1..]);
      case Some(w) =>
        var o := R.OptionsFor(cfg, server, script[0].name, w);
        AnEstablishedTunnelStays(c, steps, digest, gateway, cfg, server, o, script[1..]);
    }
  }
}
