/** One run of the client, both ways at once: the events of the loop (ClientRun) woven with the
    steps of its goroutines (ClientMachine). */
module WholeRun {
  import opened Prelude
  import opened Prefixes
  import opened Routes
  import opened RouteLookup
  import opened ClientResources
  import R = ClientRun
  import C = ClientMachine
  import T = ClientTraffic

  /** Something the loop does, or a step of the reader or of a session's goroutines. */
  datatype Moment = Outside(event: R.Event) | Inside(step: C.Step)

  function Outer(moments: seq<Moment>): seq<R.Event> {
    if |moments| == 0 then []
    else
      var rest := Outer(moments[..|moments| - 1]);
      match moments[|moments| - 1]
      case Outside(e) => rest + [e]
      case Inside(_) => rest
  }

  /** The plumbing's steps: calling runSession starts a session. */
  function Inner(moments: seq<Moment>): seq<C.Step> {
    if |moments| == 0 then []
    else
      var rest := Inner(moments[..|moments| - 1]);
      match moments[|moments| - 1]
      case Outside(e) => if e.Session? then rest + [C.Start] else rest
      case Inside(step) => rest + [step]
  }

  /** The loop does nothing while runSession runs; sessions start there and nowhere else, all with
      these parameters. */
  ghost predicate Woven(cc: C.Conf, moments: seq<Moment>) {
    |moments| > 0 ==>
      var before := moments[..|moments| - 1];
      && Woven(cc, before)
      && match moments[|moments| - 1]
         case Inside(step) => step != C.Start
         case Outside(e) =>
           !C.Exec(cc, Inner(before)).running && (e.Session? ==> e == R.Session(cc.address, cc.mtu))
  }

  ghost function SessionEvents(trace: seq<R.Event>): nat { Count(trace, (e: R.Event) => e.Session?) }

  lemma InsideStartsNothing(cc: C.Conf, s: C.State, step: C.Step)
    requires step != C.Start
    ensures |C.Next(cc, s, step).sessions| == |s.sessions| && (C.Next(cc, s, step).running ==> s.running)
  {}

  /** The plumbing has one session for every time the loop called runSession, and while one runs
      that call is the last thing the loop did. */
  lemma {:induction false} SessionsMatch(cc: C.Conf, moments: seq<Moment>)
    requires Woven(cc, moments)
    ensures var s, trace := C.Exec(cc, Inner(moments)), Outer(moments);
            && |s.sessions| == SessionEvents(trace)
            && (s.running ==> |trace| > 0 && trace[|trace| - 1] == R.Session(cc.address, cc.mtu))
  {
    if |moments| > 0 {
      var before := moments[..|moments| - 1];
      SessionsMatch(cc, before);
      match moments[|moments| - 1]
      case Inside(step) =>
        C.ExecOneMore(cc, Inner(before), step);
        InsideStartsNothing(cc, C.Exec(cc, Inner(before)), step);
      case Outside(e) =>
        CountAppend(Outer(before), e, (e: R.Event) => e.Session?);
        C.ExecOneMore(cc, Inner(before), C.Start);
    }
  }

  /** The parameters of every session of a run. */
  lemma RunHasOneConf(c: R.Config, server: Addr, script: seq<R.Attempt>) returns (cc: C.Conf)
    ensures forall i :: 0 <= i < |R.Behaviour(c, server, None, script).1| ==>
              var e := R.Behaviour(c, server, None, script).1[i]; e.Session? ==> e == R.Session(cc.address, cc.mtu)
  {
    cc := C.Conf(0, 0);
    if FirstAgreed(script).Some? {
      var a := FirstAgreed(script).value;
      var w := a.Agreed().value;
      if w.address.Some? && w.gateway.Some? {
        var o := R.OptionsFor(c, server, a.name, w);
        cc := C.Conf(o.address, o.mtu);
      }
    }
    forall i | 0 <= i < |R.Behaviour(c, server, None, script).1|
      ensures var e := R.Behaviour(c, server, None, script).1[i]; e.Session? ==> e == R.Session(cc.address, cc.mtu)
    {
      OneTunnelPerRun(c, server, script, i);
    }
  }

  /** Every run of the loop is woven with some plumbing run of its one configuration. */
  lemma EveryRunIsWoven(c: R.Config, server: Addr, script: seq<R.Attempt>) returns (cc: C.Conf, moments: seq<Moment>)
    ensures Woven(cc, moments) && Outer(moments) == R.Behaviour(c, server, None, script).1
  {
    cc := RunHasOneConf(c, server, script);
    moments := Weave(cc, R.Behaviour(c, server, None, script).1);
  }

  lemma {:induction false} Weave(cc: C.Conf, trace: seq<R.Event>) returns (moments: seq<Moment>)
    requires forall i :: 0 <= i < |trace| ==> (trace[i].Session? ==> trace[i] == R.Session(cc.address, cc.mtu))
    ensures Woven(cc, moments) && Outer(moments) == trace && !C.Exec(cc, Inner(moments)).running
  {
    if |trace| == 0 {
      moments := [];
    } else {
      var n := |trace| - 1;
      var before := Weave(cc, trace[..n]);
      moments := before + [Outside(trace[n])];
      OutsideGrows(cc, before, trace[n]);
      if trace[n].Session? {
        moments := WeaveSession(cc, moments);
      }
    }
  }

  lemma OutsideGrows(cc: C.Conf, before: seq<Moment>, e: R.Event)
    requires Woven(cc, before) && !C.Exec(cc, Inner(before)).running && (e.Session? ==> e == R.Session(cc.address, cc.mtu))
    ensures var moments := before + [Outside(e)]; var s := C.Exec(cc, Inner(before));
            && Woven(cc, moments) && Outer(moments) == Outer(before) + [e]
            && C.Exec(cc, Inner(moments)) == if e.Session? then C.Started(s) else s
  {
    assert (before + [Outside(e)])[..|before|] == before;
    C.ExecOneMore(cc, Inner(before), C.Start);
  }

  /** A session whose writer stops at once. */
  lemma WeaveSession(cc: C.Conf, before: seq<Moment>) returns (moments: seq<Moment>)
    requires Woven(cc, before)
    requires var s := C.Exec(cc, Inner(before));
             s.running && |s.sessions| > 0 && s.sessions[|s.sessions| - 1] == C.Session(false, C.Idle, C.Receiving, [])
    ensures Woven(cc, moments) && Outer(moments) == Outer(before) && !C.Exec(cc, Inner(moments)).running
  {
    var s := C.Exec(cc, Inner(before));
    var stop := C.Writer(|s.sessions| - 1, C.Stop);
    StopEnds(cc, s);
    InsideGrows(cc, before, stop);
    moments := before + [Inside(stop)];
    InsideGrows(cc, moments, C.End);
    moments := moments + [Inside(C.End)];
  }

  lemma InsideGrows(cc: C.Conf, before: seq<Moment>, step: C.Step)
    requires Woven(cc, before) && step != C.Start
    ensures var moments := before + [Inside(step)];
            && Woven(cc, moments) && Outer(moments) == Outer(before)
            && C.Exec(cc, Inner(moments)) == C.Next(cc, C.Exec(cc, Inner(before)), step)
  {
    assert (before + [Inside(step)])[..|before|] == before;
    C.ExecOneMore(cc, Inner(before), step);
  }

  lemma StopEnds(cc: C.Conf, s: C.State)
    requires s.running && |s.sessions| > 0 && s.sessions[|s.sessions| - 1] == C.Session(false, C.Idle, C.Receiving, [])
    ensures !C.Next(cc, C.Next(cc, s, C.Writer(|s.sessions| - 1, C.Stop)), C.End).running
  {
    var t := C.Next(cc, s, C.Writer(|s.sessions| - 1, C.Stop));
    assert |t.sessions| == |s.sessions| && t.sessions[|s.sessions| - 1].writer.Exited?;
  }

  /** Conservation, counted by the loop: at any moment of a run every packet put is written,
      queued, held or lost, and no more are held or lost than the loop has called runSession. */
  lemma LossesAreBoundedByTheRun(c: R.Config, server: Addr, script: seq<R.Attempt>, cc: C.Conf, moments: seq<Moment>)
    requires Woven(cc, moments) && Outer(moments) <= R.Behaviour(c, server, None, script).1
    ensures var s := C.Exec(cc, Inner(moments));
            var held := Count(s.sessions, (x: C.Session) => x.writer.Holding?);
            var lost := Count(s.sessions, (x: C.Session) => x.writer.Exited? && x.writer.lost.Some?);
            && |s.put| == |s.wire| + |s.queue| + held + lost
            && held + lost <= SessionEvents(Outer(moments)) <= SessionEvents(R.Behaviour(c, server, None, script).1)
  {
    SessionsMatch(cc, moments);
    T.AtMostOneLossPerSession(cc, Inner(moments));
    CountPrefix(Outer(moments), R.Behaviour(c, server, None, script).1, (e: R.Event) => e.Session?);
  }

  lemma {:induction false} CountPrefix<A>(xs: seq<A>, ys: seq<A>, p: A -> bool)
    requires xs <= ys
    ensures Count(xs, p) <= Count(ys, p)
  {
    if |xs| < |ys| {
      CountPrefix(xs, ys[..|ys| - 1], p);
    } else {
      assert xs == ys;
    }
  }

  /** Kill switch, seen from the packets: whenever a session is running, whatever its goroutines
      do, the setup for its own address and MTU is in force, and every destination that had
      matched at most a default route, the server apart, leaves by the tunnel interface. */
  lemma RoutesHoldWhileASessionRuns(c: R.Config, server: Addr, script: seq<R.Attempt>, cc: C.Conf, moments: seq<Moment>,
                                    t: Table, orig: Default)
    returns (o: Options)
    requires Woven(cc, moments) && Outer(moments) <= R.Behaviour(c, server, None, script).1
    requires C.Exec(cc, Inner(moments)).running
    ensures o.address == cc.address && o.mtu == cc.mtu
    ensures TableAfter(t, orig, Outer(moments)) == Apply(t, Steps(o, orig))
    ensures Usable(orig, o.interface) ==>
              forall ip: Addr ::
                (forall q: Prefix :: Route4(q) in t && q.Valid() && q.Contains(ip) ==> q.bits == 0) && ip != o.serverIP ==>
                var route := Lookup(TableAfter(t, orig, Outer(moments)), ip); route.Some? && route.value.dev == o.interface
  {
    var trace := R.Behaviour(c, server, None, script).1;
    var events := Outer(moments);
    SessionsMatch(cc, moments);
    RunsAreLegal(c, server, None, script);
    PrefixIsLegal(trace, |events|);
    assert trace[..|events|] == events;
    o := PhaseAfter(Idle, events[..|events| - 1]).o;
    PhaseTellsTheTable(t, orig, events);
    if Usable(orig, o.interface) {
      forall ip: Addr | (forall q: Prefix :: Route4(q) in t && q.Valid() && q.Contains(ip) ==> q.bits == 0) && ip != o.serverIP
        ensures var route := Lookup(TableAfter(t, orig, events), ip); route.Some? && route.value.dev == o.interface
      {
        DefaultTrafficIsCaptured(t, o, orig, ip);
      }
    }
  }
}
