/** The client's run (internal/client/client.go:41-124): one loop over connection attempts
    whose device, routes and parameters are fixed at the first connection, with many exits. */
module ClientRun {
  import opened Prelude
  import opened Routes

  datatype Config = Config(interface: string, mtu: int, dns: seq<Addr>, blockIPv6: bool)

  /** The WELCOME record; an address is absent when its text is not an IPv4 address. */
  datatype Welcome = Welcome(sessionId: string, address: Option<Addr>, gateway: Option<Addr>, mtu: int)

  /** How the opened device and the setup answer. */
  datatype Bring = OpenFails | NameFails | SetupFails(done: nat) | Works

  /** What the environment does in one turn of the loop. */
  datatype Attempt = Attempt(
    sessionId: string,            // the random session id of this HELLO
    welcome: Option<Welcome>,     // None: dialing, the HELLO or reading the WELCOME failed
    bring: Bring,                 // consulted on the first connection only
    name: string,                 // the device's name
    done: bool,                   // the context is done when the dial or the session has ended
    slept: bool)                  // the retry delay passed without the context ending
  {
    /** The WELCOME if connect accepts it (client.go:188). */
    function Agreed(): Option<Welcome> {
      match welcome
      case None => None
      case Some(w) => if w.sessionId != sessionId || w.mtu < 576 || w.mtu > 1500 then None else Some(w)
    }
  }

  datatype Exit =
    | Unresolved | Stopped | InvalidAddress | InvalidGateway | OpenFailed | NameFailed | SetupFailed | ParametersChanged

  /** An error of the deferred function, joined to the run's own. */
  datatype Fault = CleanupFault | CloseFault

  /** What a run does to the outside. */
  datatype Event =
    | Dial
    | Wait
    | Open(mtu: int, ok: bool)
    | Setup(o: Options)
    | SetupStopped(o: Options, done: nat)
    | Spawn(address: Addr, mtu: int)
    | Session(address: Addr, mtu: int)
    | Cleanup(o: Options)
    | Close

  function OptionsFor(c: Config, server: Addr, name: string, w: Welcome): Options
    requires w.address.Some? && w.gateway.Some?
  {
    Options(name, w.address.value, w.gateway.value, server, Min(c.mtu, w.mtu), c.dns, c.blockIPv6)
  }

  predicate SameParameters(c: Config, o: Options, w: Welcome) {
    w.address == Some(o.address) && w.gateway == Some(o.gateway) && Min(c.mtu, w.mtu) == o.mtu
  }

  // ----- What a run does, as a function of its environment -----

  /** The release of what is held. */
  function Released(tunnel: Option<Options>): seq<Event> {
    if tunnel.Some? then [Cleanup(tunnel.value), Close] else []
  }

  /** The first connection, up to the reader: its events and either the tunnel or an exit. */
  function BroughtUp(c: Config, server: Addr, a: Attempt, w: Welcome): (seq<Event>, Result<Options, Exit>)
    requires w.address.Some? && w.gateway.Some?
  {
    var o := OptionsFor(c, server, a.name, w);
    match a.bring
    case OpenFails => ([Open(o.mtu, false)], Failure(OpenFailed))
    case NameFails => ([Open(o.mtu, true), Close], Failure(NameFailed))
    case SetupFails(done) => ([Open(o.mtu, true), SetupStopped(o, done), Close], Failure(SetupFailed))
    case Works => ([Open(o.mtu, true), Setup(o), Spawn(o.address, o.mtu)], Success(o))
  }

  /** A run over a script of attempts, behind which the context is done. */
  function Behaviour(c: Config, server: Addr, tunnel: Option<Options>, script: seq<Attempt>): (Exit, seq<Event>)
    decreases |script|, 1
  {
    if script == [] then (Stopped, [Dial] + Released(tunnel))
    else
      match script[0].Agreed()
      case None => Continued(c, server, tunnel, script, [Dial])
      case Some(w) =>
        if w.address.None? then (InvalidAddress, [Dial] + Released(tunnel))
        else if w.gateway.None? then (InvalidGateway, [Dial] + Released(tunnel))
        else
          match tunnel
          case Some(o) =>
            if SameParameters(c, o, w) then Continued(c, server, tunnel, script, [Dial, Session(o.address, o.mtu)])
            else (ParametersChanged, [Dial] + Released(tunnel))
          case None =>
            var (events, up) := BroughtUp(c, server, script[0], w);
            match up
            case Failure(exit) => (exit, [Dial] + events)
            case Success(o) =>
              Continued(c, server, Some(o), script, [Dial] + events + [Session(o.address, o.mtu)])
  }

  /** The end of a turn: the context, the retry delay, then the rest of the script. */
  function Continued(c: Config, server: Addr, tunnel: Option<Options>, script: seq<Attempt>, events: seq<Event>): (Exit, seq<Event>)
    requires script != []
    decreases |script|, 0
  {
    if script[0].done then (Stopped, events + Released(tunnel))
    else if !script[0].slept then (Stopped, events + [Wait] + Released(tunnel))
    else
      var (exit, more) := Behaviour(c, server, tunnel, script[1..]);
      (exit, events + [Wait] + more)
  }

  // ----- The loop -----

  /** Nothing is released yet. */
  ghost predicate Unreleased(events: seq<Event>) {
    forall k :: 0 <= k < |events| ==> !events[k].Cleanup? && !events[k].Close?
  }

  /** What the deferred function releases. */
  function Deferred(dev: bool, cleanup: Option<Options>): seq<Event> {
    (if cleanup.Some? then [Cleanup(cleanup.value)] else []) + (if dev then [Close] else [])
  }

  /** Opens the device, sets it up and starts the reader (client.go:93-113). */
  method FirstConnection(c: Config, server: Addr, a: Attempt, w: Welcome)
    returns (events: seq<Event>, dev: bool, cleanup: Option<Options>, failed: Option<Exit>)
    requires w.address.Some? && w.gateway.Some?
    ensures match failed
            case None => dev && cleanup.Some? && BroughtUp(c, server, a, w).1 == Success(cleanup.value)
            case Some(exit) => cleanup.None? && BroughtUp(c, server, a, w).1 == Failure(exit)
    ensures Unreleased(events)
    ensures BroughtUp(c, server, a, w).0 == if failed.Some? then events + Deferred(dev, None) else events
  {
    dev, cleanup, failed := false, None, None;
    var mtu := Min(c.mtu, w.mtu);
    if a.bring.OpenFails? {
      return [Open(mtu, false)], false, None, Some(OpenFailed);
    }
    dev, events := true, [Open(mtu, true)];
    if a.bring.NameFails? {
      failed := Some(NameFailed);
      return;
    }
    var o := OptionsFor(c, server, a.name, w);
    if a.bring.SetupFails? {
      events, failed := events + [SetupStopped(o, a.bring.done)], Some(SetupFailed);
      return;
    }
    cleanup := Some(o);
    events := events + [Setup(o), Spawn(o.address, mtu)];
  }

  /** The first half of a turn (client.go:67-110): the dial, and a session if it got a welcome;
      an exit, or on to the end of the turn. */
  method DialAndServe(c: Config, server: Addr, rest: seq<Attempt>, tunnel: Option<Options>)
    returns (events: seq<Event>, dev: bool, cleanup: Option<Options>, exit: Option<Exit>)
    requires rest != []
    ensures Unreleased(events)
    ensures exit.None? ==> dev == cleanup.Some?
    ensures var (e, all) := Behaviour(c, server, tunnel, rest);
            match exit
            case Some(x) => e == x && all == events + Deferred(dev, cleanup)
            case None => var (later, more) := Continued(c, server, cleanup, rest, events); e == later && all == more
  {
    var a := rest[0];
    dev, cleanup, exit := tunnel.Some?, tunnel, None;
    events := [Dial];
    var agreed := a.Agreed();
    if agreed.None? {
      return;
    }
    var w := agreed.value;
    if w.address.None? {
      exit := Some(InvalidAddress);
      return;
    }
    if w.gateway.None? {
      exit := Some(InvalidGateway);
      return;
    }
    if !dev {
      var bringing;
      bringing, dev, cleanup, exit := FirstConnection(c, server, a, w);
      events := events + bringing;
      if exit.Some? {
        return;
      }
    } else if !SameParameters(c, cleanup.value, w) {
      exit := Some(ParametersChanged);
      return;
    }
    events := events + [Session(cleanup.value.address, cleanup.value.mtu)];
  }

  /** One turn of the loop: its events, what is held behind it, and the exit unless the loop
      goes on. */
  method Turn(c: Config, server: Addr, rest: seq<Attempt>, tunnel: Option<Options>)
    returns (events: seq<Event>, dev: bool, cleanup: Option<Options>, exit: Option<Exit>)
    requires rest != []
    ensures exit.None? ==> dev == cleanup.Some?
    ensures Unreleased(events)
    ensures var (e, all) := Behaviour(c, server, tunnel, rest);
            match exit
            case Some(x) => e == x && all == events + Deferred(dev, cleanup)
            case None => var (later, more) := Behaviour(c, server, cleanup, rest[1..]); e == later && all == events + more
  {
    events, dev, cleanup, exit := DialAndServe(c, server, rest, tunnel);
    if exit.Some? {
      return;
    }
    if rest[0].done {
      exit := Some(Stopped);
      return;
    }
    events := events + [Wait];
    if !rest[0].slept {
      exit := Some(Stopped);
    }
  }

  /** The deferred function: the cleanup and then the close, each if there is one, whatever the
      other returns. */
  method Release(trace: seq<Event>, dev: bool, cleanup: Option<Options>, cleanupFails: bool, closeFails: bool)
    returns (all: seq<Event>, joined: seq<Fault>)
    requires Unreleased(trace)
    ensures all == trace + Deferred(dev, cleanup)
    ensures CleanupFault in joined <==> cleanupFails && exists k :: 0 <= k < |all| && all[k].Cleanup?
    ensures CloseFault in joined <==> closeFails && exists k :: 0 <= k < |all| && all[k].Close?
  {
    all, joined := trace, [];
    if cleanup.Some? {
      all := all + [Cleanup(cleanup.value)];
      if cleanupFails {
        joined := joined + [CleanupFault];
      }
    }
    if dev {
      all := all + [Close];
      assert all[|all| - 1].Close?;
      if closeFails {
        joined := joined + [CloseFault];
      }
    }
    assert cleanup.Some? ==> all[|trace|].Cleanup?;
  }

  /** Run: one loop turn per attempt until an exit, then the deferred release, whose faults are
      joined to the exit exactly when the failing call was made. */
  method Run(c: Config, serverIP: Option<Addr>, script: seq<Attempt>, cleanupFails: bool, closeFails: bool)
    returns (exit: Exit, joined: seq<Fault>, trace: seq<Event>)
    ensures serverIP.None? ==> exit == Unresolved && trace == [] && joined == []
    ensures serverIP.Some? ==> var (e, events) := Behaviour(c, serverIP.value, None, script); exit == e && trace == events
    ensures CleanupFault in joined <==> cleanupFails && exists k :: 0 <= k < |trace| && trace[k].Cleanup?
    ensures CloseFault in joined <==> closeFails && exists k :: 0 <= k < |trace| && trace[k].Close?
  {
    trace := [];
    if serverIP.None? {
      return Unresolved, [], [];
    }
    ghost var whole := Behaviour(c, serverIP.value, None, script);
    var dev := false;
    var cleanup: Option<Options> := None;
    var rest := script;
    while rest != []
      invariant dev == cleanup.Some? && Unreleased(trace)
      invariant Behaviour(c, serverIP.value, cleanup, rest).0 == whole.0
      invariant trace + Behaviour(c, serverIP.value, cleanup, rest).1 == whole.1
      decreases |rest|
    {
      ghost var before := trace;
      var events, over;
      events, dev, cleanup, over := Turn(c, serverIP.value, rest, cleanup);
      trace, rest := trace + events, rest[1..];
      if over.Some? {
        assert before + (events + Deferred(dev, cleanup)) == trace + Deferred(dev, cleanup);
        exit := over.value;
        trace, joined := Release(trace, dev, cleanup, cleanupFails, closeFails);
        return;
      }
      assert before + (events + Behaviour(c, serverIP.value, cleanup, rest).1) == trace + Behaviour(c, serverIP.value, cleanup, rest).1;
    }
    // the context is done before the next dial succeeds
    assert trace + ([Dial] + Deferred(dev, cleanup)) == trace + [Dial] + Deferred(dev, cleanup);
    exit := Stopped;
    trace, joined := Release(trace + [Dial], dev, cleanup, cleanupFails, closeFails);
  }
}
