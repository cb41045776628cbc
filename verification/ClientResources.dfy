/** What every run of the client keeps: the device, the setup and the reader at most once each,
    one set of parameters, routes in place from the setup to the exit, and a release that
    matches what was acquired. */
module ClientResources {
  import opened Prelude
  import opened Prefixes
  import opened Routes
  import opened RouteLookup
  import opened ClientRun

  /** The tunnel of a finished run: none, one set up and cleaned up, or one rolled back after so
      many commands. */
  datatype Tunnel = Nothing | Whole(o: Options) | Partly(o: Options, done: nat)

  /** What a run holds. */
  datatype Phase =
    | Idle
    | Opened(mtu: int)
    | Halted(o: Options, done: nat)             // the setup failed
    | Ready(o: Options)
    | Running(o: Options)
    | Cleaned(o: Options)
    | Over(acquired: bool, tunnel: Tunnel)
    | Illegal

  /** The discipline: which event may follow, and what is held after it. */
  function After(p: Phase, e: Event): Phase {
    match p
    case Idle =>
      if e.Dial? || e.Wait? then p
      else if e.Open? then (if e.ok then Opened(e.mtu) else Over(false, Nothing))
      else Illegal
    case Opened(m) =>
      if e.Setup? && e.o.mtu == m then Ready(e.o)
      else if e.SetupStopped? && e.o.mtu == m then Halted(e.o, e.done)
      else if e.Close? then Over(true, Nothing)
      else Illegal
    case Halted(o, done) => if e.Close? then Over(true, Partly(o, done)) else Illegal
    case Ready(o) => if e == Spawn(o.address, o.mtu) then Running(o) else Illegal
    case Running(o) =>
      if e.Dial? || e.Wait? || e == Session(o.address, o.mtu) then p
      else if e == Cleanup(o) then Cleaned(o)
      else Illegal
    case Cleaned(o) => if e.Close? then Over(true, Whole(o)) else Illegal
    case _ => Illegal
  }

  ghost function PhaseAfter(p: Phase, trace: seq<Event>): Phase {
    if |trace| == 0 then p else After(PhaseAfter(p, trace[..|trace| - 1]), trace[|trace| - 1])
  }

  lemma {:induction false} PhaseConcat(p: Phase, a: seq<Event>, b: seq<Event>)
    ensures PhaseAfter(p, a + b) == PhaseAfter(PhaseAfter(p, a), b)
  {
    if |b| == 0 {
      assert a + b == a;
    } else {
      PhaseConcat(p, a, b[..|b| - 1]);
      assert (a + b)[..|a + b| - 1] == a + b[..|b| - 1];
    }
  }

  lemma PhaseOne(p: Phase, e: Event)
    ensures PhaseAfter(p, [e]) == After(p, e)
  {
    assert [e][..0] == [];
  }

  lemma PhaseTwo(p: Phase, d: Event, e: Event)
    ensures PhaseAfter(p, [d, e]) == After(After(p, d), e)
  {
    assert [d, e][..1] == [d];
    PhaseOne(p, d);
  }

  lemma PhaseThree(p: Phase, d: Event, e: Event, f: Event)
    ensures PhaseAfter(p, [d, e, f]) == After(After(After(p, d), e), f)
  {
    assert [d, e, f][..2] == [d, e];
    PhaseTwo(p, d, e);
  }

  function Held(tunnel: Option<Options>): Phase { if tunnel.Some? then Running(tunnel.value) else Idle }

  /** Everything acquired is released. */
  predicate Balanced(p: Phase) { p.Idle? || p.Over? }

  lemma ReleaseBalances(tunnel: Option<Options>)
    ensures Balanced(PhaseAfter(Held(tunnel), Released(tunnel)))
  {
    if tunnel.Some? {
      PhaseTwo(Held(tunnel), Cleanup(tunnel.value), Close);
    }
  }

  lemma BringingUpIsLegal(c: Config, server: Addr, a: Attempt, w: Welcome)
    requires w.address.Some? && w.gateway.Some?
    ensures var (events, up) := BroughtUp(c, server, a, w);
            if up.Success? then PhaseAfter(Idle, events) == Running(up.value)
            else PhaseAfter(Idle, events).Over?
  {
    var o := OptionsFor(c, server, a.name, w);
    PhaseOne(Idle, Open(o.mtu, false));
    PhaseTwo(Idle, Open(o.mtu, true), Close);
    PhaseThree(Idle, Open(o.mtu, true), Setup(o), Spawn(o.address, o.mtu));
    match a.bring
    case SetupFails(done) => PhaseThree(Idle, Open(o.mtu, true), SetupStopped(o, done), Close);
    case _ =>
  }

  /** Every run keeps the discipline and ends with nothing held. */
  lemma {:induction false} RunsAreLegal(c: Config, server: Addr, tunnel: Option<Options>, script: seq<Attempt>)
    ensures Balanced(PhaseAfter(Held(tunnel), Behaviour(c, server, tunnel, script).1))
    decreases |script|, 1
  {
    var p := Held(tunnel);
    PhaseOne(p, Dial);
    ReleaseBalances(tunnel);
    PhaseConcat(p, [Dial], Released(tunnel));
    if script != [] {
      match script[0].Agreed()
      case None => ContinuedRunsAreLegal(c, server, tunnel, tunnel, script, [Dial]);
      case Some(w) =>
        if w.address.Some? && w.gateway.Some? {
          match tunnel
          case Some(o) =>
            PhaseTwo(p, Dial, Session(o.address, o.mtu));
            ContinuedRunsAreLegal(c, server, tunnel, tunnel, script, [Dial, Session(o.address, o.mtu)]);
          case None => FirstConnectionIsLegal(c, server, script, w);
        }
    }
  }

  lemma {:induction false} FirstConnectionIsLegal(c: Config, server: Addr, script: seq<Attempt>, w: Welcome)
    requires script != [] && script[0].Agreed() == Some(w) && w.address.Some? && w.gateway.Some?
    ensures Balanced(PhaseAfter(Idle, Behaviour(c, server, None, script).1))
    decreases |script|, 1, 0
  {
    var (events, up) := BroughtUp(c, server, script[0], w);
    BringingUpIsLegal(c, server, script[0], w);
    PhaseOne(Idle, Dial);
    PhaseConcat(Idle, [Dial], events);
    match up
    case Failure(_) =>
    case Success(o) =>
      var session := Session(o.address, o.mtu);
      PhaseConcat(Idle, [Dial] + events, [session]);
      PhaseOne(Running(o), session);
      ContinuedRunsAreLegal(c, server, None, Some(o), script, [Dial] + events + [session]);
  }

  lemma {:induction false} ContinuedRunsAreLegal(c: Config, server: Addr, before: Option<Options>, tunnel: Option<Options>,
                                                 script: seq<Attempt>, events: seq<Event>)
    requires script != [] && PhaseAfter(Held(before), events) == Held(tunnel)
    ensures Balanced(PhaseAfter(Held(before), Continued(c, server, tunnel, script, events).1))
    decreases |script|, 0
  {
    var p := Held(before);
    ReleaseBalances(tunnel);
    PhaseConcat(p, events, Released(tunnel));
    PhaseConcat(p, events, [Wait]);
    PhaseOne(Held(tunnel), Wait);
    PhaseConcat(p, events + [Wait], Released(tunnel));
    if !script[0].done && script[0].slept {
      RunsAreLegal(c, server, tunnel, script[1..]);
      PhaseConcat(p, events + [Wait], Behaviour(c, server, tunnel, script[1..]).1);
    }
  }

  // ----- What the discipline means -----

  ghost function Opens(trace: seq<Event>): nat { Count(trace, (e: Event) => e.Open?) }
  ghost function Devices(trace: seq<Event>): nat { Count(trace, (e: Event) => e.Open? && e.ok) }
  ghost function Attempts(trace: seq<Event>): nat { Count(trace, (e: Event) => e.Setup? || e.SetupStopped?) }
  ghost function Setups(trace: seq<Event>): nat { Count(trace, (e: Event) => e.Setup?) }
  ghost function Readers(trace: seq<Event>): nat { Count(trace, (e: Event) => e.Spawn?) }
  ghost function Cleanups(trace: seq<Event>): nat { Count(trace, (e: Event) => e.Cleanup?) }
  ghost function Closes(trace: seq<Event>): nat { Count(trace, (e: Event) => e.Close?) }

  /** An event uses these parameters, if any. */
  predicate Uses(e: Event, o: Options) {
    match e
    case Open(m, _) => m == o.mtu
    case Setup(q) => q == o
    case SetupStopped(_, _) => false
    case Spawn(a, m) => a == o.address && m == o.mtu
    case Session(a, m) => a == o.address && m == o.mtu
    case Cleanup(q) => q == o
    case _ => true
  }

  /** An event of a run whose setup stopped. */
  predicate Halts(e: Event, o: Options, done: nat) {
    if e.SetupStopped? then e == SetupStopped(o, done) else e.Dial? || e.Wait? || e.Open? || e.Close?
  }

  predicate One(b: bool, n: nat) { n == if b then 1 else 0 }

  ghost predicate Acquired(p: Phase, trace: seq<Event>) {
    var up := p.Ready? || p.Running? || p.Cleaned? || (p.Over? && p.tunnel.Whole?);
    && One(!p.Idle?, Opens(trace))
    && One(!p.Idle? && (p.Over? ==> p.acquired), Devices(trace))
    && One(!p.Idle? && !p.Opened? && (p.Over? ==> !p.tunnel.Nothing?), Attempts(trace))
    && One(up, Setups(trace))
    && One(up && !p.Ready?, Readers(trace))
  }

  ghost predicate Given(p: Phase, trace: seq<Event>) {
    && One(p.Cleaned? || (p.Over? && p.tunnel.Whole?), Cleanups(trace))
    && One(p.Over? && p.acquired, Closes(trace))
    && (p.Over? && p.tunnel.Whole? ==> p.acquired)
  }

  ghost predicate Fixed(p: Phase, trace: seq<Event>) {
    match p
    case Idle => forall k :: 0 <= k < |trace| ==> trace[k].Dial? || trace[k].Wait?
    case Opened(m) => forall k :: 0 <= k < |trace| ==> trace[k].Dial? || trace[k].Wait? || trace[k] == Open(m, true)
    case Ready(o) => forall k :: 0 <= k < |trace| ==> Uses(trace[k], o)
    case Running(o) => forall k :: 0 <= k < |trace| ==> Uses(trace[k], o)
    case Cleaned(o) => forall k :: 0 <= k < |trace| ==> Uses(trace[k], o)
    case Over(_, Whole(o)) => forall k :: 0 <= k < |trace| ==> Uses(trace[k], o)
    case Over(_, Nothing) => forall k :: 0 <= k < |trace| ==> trace[k].Dial? || trace[k].Wait? || trace[k].Open? || trace[k].Close?
    case Over(_, Partly(o, done)) => forall k :: 0 <= k < |trace| ==> Halts(trace[k], o, done)
    case Halted(o, done) => forall k :: 0 <= k < |trace| ==> Halts(trace[k], o, done)
    case Illegal => true
  }

  lemma OneMore(trace: seq<Event>, e: Event)
    ensures var t := trace + [e];
            && Opens(t) == Opens(trace) + (if e.Open? then 1 else 0)
            && Devices(t) == Devices(trace) + (if e.Open? && e.ok then 1 else 0)
            && Attempts(t) == Attempts(trace) + (if e.Setup? || e.SetupStopped? then 1 else 0)
            && Setups(t) == Setups(trace) + (if e.Setup? then 1 else 0)
            && Readers(t) == Readers(trace) + (if e.Spawn? then 1 else 0)
            && Cleanups(t) == Cleanups(trace) + (if e.Cleanup? then 1 else 0)
            && Closes(t) == Closes(trace) + (if e.Close? then 1 else 0)
  {
    CountAppend(trace, e, (e: Event) => e.Open?);
    CountAppend(trace, e, (e: Event) => e.Open? && e.ok);
    CountAppend(trace, e, (e: Event) => e.Setup? || e.SetupStopped?);
    CountAppend(trace, e, (e: Event) => e.Setup?);
    CountAppend(trace, e, (e: Event) => e.Spawn?);
    CountAppend(trace, e, (e: Event) => e.Cleanup?);
    CountAppend(trace, e, (e: Event) => e.Close?);
  }

  lemma {:induction false} PhaseCounts(trace: seq<Event>)
    requires !PhaseAfter(Idle, trace).Illegal?
    ensures Acquired(PhaseAfter(Idle, trace), trace) && Given(PhaseAfter(Idle, trace), trace)
  {
    if |trace| > 0 {
      var init := trace[..|trace| - 1];
      PhaseCounts(init);
      OneMore(init, trace[|trace| - 1]);
      assert trace == init + [trace[|trace| - 1]];
    }
  }

  lemma {:induction false} PhaseParameters(trace: seq<Event>)
    requires !PhaseAfter(Idle, trace).Illegal?
    ensures Fixed(PhaseAfter(Idle, trace), trace)
  {
    if |trace| > 0 {
      PhaseParameters(trace[..|trace| - 1]);
      FixedGrows(PhaseAfter(Idle, trace[..|trace| - 1]), trace[..|trace| - 1], trace[|trace| - 1]);
      assert trace == trace[..|trace| - 1] + [trace[|trace| - 1]];
    }
  }

  lemma FixedGrows(p: Phase, trace: seq<Event>, e: Event)
    requires Fixed(p, trace) && !After(p, e).Illegal?
    ensures Fixed(After(p, e), trace + [e])
  {}

  lemma {:induction false} IllegalStays(trace: seq<Event>, more: seq<Event>)
    requires !PhaseAfter(Idle, trace + more).Illegal?
    ensures !PhaseAfter(Idle, trace).Illegal?
  {
    if |more| == 0 {
      assert trace + more == trace;
    } else {
      assert (trace + more)[..|trace + more| - 1] == trace + more[..|more| - 1];
      IllegalStays(trace, more[..|more| - 1]);
    }
  }

  lemma PrefixIsLegal(trace: seq<Event>, i: nat)
    requires i <= |trace| && !PhaseAfter(Idle, trace).Illegal?
    ensures !PhaseAfter(Idle, trace[..i]).Illegal?
  {
    assert trace == trace[..i] + trace[i..];
    IllegalStays(trace[..i], trace[i..]);
  }

  // ----- Main results -----

  /** Over every run and every exit: the device, the setup and the reader at most once each;
      the cleanup exactly once if and only if the setup succeeded, the close exactly once if
      and only if the open did. */
  lemma ResourcesAreBalanced(c: Config, server: Addr, script: seq<Attempt>)
    ensures var trace := Behaviour(c, server, None, script).1;
            && Opens(trace) <= 1 && Attempts(trace) <= 1
            && Readers(trace) == Setups(trace) == Cleanups(trace) <= Devices(trace) == Closes(trace)
  {
    RunsAreLegal(c, server, None, script);
    PhaseCounts(Behaviour(c, server, None, script).1);
  }

  /** Nothing follows the close, and only the close follows the cleanup. */
  lemma ReleaseComesLast(c: Config, server: Addr, script: seq<Attempt>, i: nat, j: nat)
    requires i < j < |Behaviour(c, server, None, script).1|
    ensures var trace := Behaviour(c, server, None, script).1;
            !trace[i].Close? && (trace[i].Cleanup? ==> trace[j].Close? && j == i + 1 == |trace| - 1)
  {
    RunsAreLegal(c, server, None, script);
    LegalReleaseComesLast(Behaviour(c, server, None, script).1, i, j);
  }

  lemma LegalReleaseComesLast(trace: seq<Event>, i: nat, j: nat)
    requires i < j < |trace| && !PhaseAfter(Idle, trace).Illegal?
    ensures !trace[i].Close? && (trace[i].Cleanup? ==> trace[j].Close? && j == i + 1 == |trace| - 1)
  {
    PhaseStep(trace, i);
    PhaseStep(trace, i + 1);
    if i + 2 < |trace| {
      PhaseStep(trace, i + 2);
    }
  }

  /** Along a legal trace every event is legal. */
  lemma PhaseStep(trace: seq<Event>, i: nat)
    requires i < |trace| && !PhaseAfter(Idle, trace).Illegal?
    ensures PhaseAfter(Idle, trace[..i + 1]) == After(PhaseAfter(Idle, trace[..i]), trace[i])
    ensures !PhaseAfter(Idle, trace[..i + 1]).Illegal?
  {
    PrefixIsLegal(trace, i + 1);
    assert trace[..i + 1][..i] == trace[..i];
  }

  /** The first welcome a run agrees to. */
  function FirstAgreed(script: seq<Attempt>): (r: Option<Attempt>)
    ensures r.Some? ==> r.value.Agreed().Some?
  {
    if script == [] then None
    else if script[0].Agreed().Some? then Some(script[0])
    else if script[0].done || !script[0].slept then None
    else FirstAgreed(script[1..])
  }

  /** An event of this tunnel, brought up successfully or not. */
  predicate Concerns(e: Event, o: Options) { if e.SetupStopped? then e.o == o else Uses(e, o) }

  lemma FirstConnectionFixesTheTunnel(c: Config, server: Addr, script: seq<Attempt>, w: Welcome, i: nat)
    requires script != [] && script[0].Agreed() == Some(w)
    requires i < |Behaviour(c, server, None, script).1|
    ensures var e := Behaviour(c, server, None, script).1[i];
            || e.Dial?
            || (w.address.Some? && w.gateway.Some? && Concerns(e, OptionsFor(c, server, script[0].name, w)))
  {
    var trace := Behaviour(c, server, None, script).1;
    RunsAreLegal(c, server, None, script);
    PhaseParameters(trace);
    if w.address.Some? && w.gateway.Some? && script[0].bring.Works? {
      var o := OptionsFor(c, server, script[0].name, w);
      assert trace[2] == Setup(o) && trace[3].Spawn?;
    }
  }

  /** Everything a run opens, sets up, reads for, carries packets for and cleans up has the
      address, the gateway and the MTU of the first welcome it agreed to. */
  lemma {:induction false} OneTunnelPerRun(c: Config, server: Addr, script: seq<Attempt>, i: nat)
    requires i < |Behaviour(c, server, None, script).1|
    ensures var e := Behaviour(c, server, None, script).1[i];
            || e.Dial?
            || e.Wait?
            || (FirstAgreed(script).Some?
                && var a := FirstAgreed(script).value; var w := a.Agreed().value;
                w.address.Some? && w.gateway.Some? && Concerns(e, OptionsFor(c, server, a.name, w)))
  {
    if script != [] {
      match script[0].Agreed()
      case Some(w) => FirstConnectionFixesTheTunnel(c, server, script, w, i);
      case None =>
        if i >= 2 {
          OneTunnelPerRun(c, server, script[1..], i - 2);
        }
    }
  }

  // ----- Reconnecting -----

  /** A turn that keeps an established tunnel going. */
  predicate Survives(c: Config, o: Options, a: Attempt) {
    !a.done && a.slept && (a.Agreed().Some? ==> SameParameters(c, o, a.Agreed().value))
  }

  /** A welcome that parses but for another tunnel. */
  predicate Moves(c: Config, o: Options, a: Attempt) {
    && a.Agreed().Some?
    && a.Agreed().value.address.Some? && a.Agreed().value.gateway.Some?
    && !SameParameters(c, o, a.Agreed().value)
  }

  /** An established run ends with changed parameters exactly when, behind turns that keep it
      going, a welcome names another address, gateway or MTU. */
  lemma {:induction false} ChangedParametersEndTheRun(c: Config, server: Addr, o: Options, script: seq<Attempt>)
    ensures Behaviour(c, server, Some(o), script).0 == ParametersChanged <==>
            exists k :: 0 <= k < |script| && Moves(c, o, script[k]) && forall j :: 0 <= j < k ==> Survives(c, o, script[j])
  {
    if script != [] && Survives(c, o, script[0]) {
      ChangedParametersEndTheRun(c, server, o, script[1..]);
      if k :| 0 <= k < |script| - 1 && Moves(c, o, script[1..][k]) && forall j :: 0 <= j < k ==> Survives(c, o, script[1..][j]) {
        assert Moves(c, o, script[k + 1]);
        forall j | 0 <= j < k + 1
          ensures Survives(c, o, script[j])
        {
          assert j > 0 ==> script[1..][j - 1] == script[j];
        }
      }
      if k :| 0 <= k < |script| && Moves(c, o, script[k]) && forall j :: 0 <= j < k ==> Survives(c, o, script[j]) {
        assert Moves(c, o, script[1..][k - 1]);
      }
    } else if script != [] && Moves(c, o, script[0]) {
      assert Moves(c, o, script[0]);
    }
  }

  /** With a server that keeps its word, failed dials and lost sessions never end a run: it has
      one session for every welcome and stops only with its context. */
  lemma {:induction false} ReconnectsAreUnlimited(c: Config, server: Addr, o: Options, script: seq<Attempt>)
    requires forall k :: 0 <= k < |script| ==> Survives(c, o, script[k])
    ensures var (exit, trace) := Behaviour(c, server, Some(o), script);
            exit == Stopped
            && Count(trace, (e: Event) => e.Session?) == Count(script, (a: Attempt) => a.Agreed().Some?)
  {
    var session, welcomed := (e: Event) => e.Session?, (a: Attempt) => a.Agreed().Some?;
    if script == [] {
      CountThree(Dial, Cleanup(o), Close, session);
    } else {
      var rest := Behaviour(c, server, Some(o), script[1..]).1;
      ReconnectsAreUnlimited(c, server, o, script[1..]);
      CountFront(script[0], script[1..], welcomed);
      assert script == [script[0]] + script[1..];
      SurvivingTurn(c, server, o, script);
      CountTurn(o, rest, session);
    }
  }

  /** The events of a turn that keeps the tunnel going. */
  lemma SurvivingTurn(c: Config, server: Addr, o: Options, script: seq<Attempt>)
    requires script != [] && Survives(c, o, script[0])
    ensures var (exit, trace) := Behaviour(c, server, Some(o), script);
            var (later, rest) := Behaviour(c, server, Some(o), script[1..]);
            exit == later
            && trace == [Dial] + (if script[0].Agreed().Some? then [Session(o.address, o.mtu)] + ([Wait] + rest) else [Wait] + rest)
  {}

  lemma CountTurn(o: Options, rest: seq<Event>, p: Event -> bool)
    requires !p(Dial) && !p(Wait) && p(Session(o.address, o.mtu))
    ensures Count([Dial] + ([Wait] + rest), p) == Count(rest, p)
    ensures Count([Dial] + ([Session(o.address, o.mtu)] + ([Wait] + rest)), p) == Count(rest, p) + 1
  {
    CountFront(Wait, rest, p);
    CountFront(Dial, [Wait] + rest, p);
    CountFront(Session(o.address, o.mtu), [Wait] + rest, p);
    CountFront(Dial, [Session(o.address, o.mtu)] + ([Wait] + rest), p);
  }

  lemma CountThree<T>(x: T, y: T, z: T, p: T -> bool)
    requires !p(x) && !p(y) && !p(z)
    ensures Count([x] + [y, z], p) == 0
  {
    CountZero([x] + [y, z], p);
  }

  lemma {:induction false} CountFront<T>(x: T, xs: seq<T>, p: T -> bool)
    ensures Count([x] + xs, p) == Count(xs, p) + (if p(x) then 1 else 0)
  {
    if |xs| == 0 {
      assert [x] + xs == [] + [x];
      CountAppend([], x, p);
    } else {
      assert [x] + xs == ([x] + xs[..|xs| - 1]) + [xs[|xs| - 1]];
      CountFront(x, xs[..|xs| - 1], p);
      CountAppend([x] + xs[..|xs| - 1], xs[|xs| - 1], p);
    }
  }

  // ----- Kill switch -----

  function FirstSteps(o: Options, orig: Default, done: nat): seq<Op> {
    Steps(o, orig)[..Min(done, |Steps(o, orig)|)]
  }

  ghost function RolledBack(t: Table, orig: Default, o: Options, done: nat): Table {
    UndoAll(Apply(t, FirstSteps(o, orig, done)), FirstSteps(o, orig, done))
  }

  /** The routing table along a trace that began with table t (client_linux.go). */
  ghost function TableAfter(t: Table, orig: Default, trace: seq<Event>): Table {
    if |trace| == 0 then t
    else
      var before := TableAfter(t, orig, trace[..|trace| - 1]);
      match trace[|trace| - 1]
      case Setup(o) => Apply(before, Steps(o, orig))
      case SetupStopped(o, done) => RolledBack(before, orig, o, done)
      case Cleanup(o) => UndoAll(before, Steps(o, orig))
      case _ => before
  }

  ghost predicate TableIs(p: Phase, t: Table, orig: Default, now: Table) {
    match p
    case Idle => now == t
    case Opened(_) => now == t
    case Ready(o) => now == Apply(t, Steps(o, orig))
    case Running(o) => now == Apply(t, Steps(o, orig))
    case Cleaned(o) => now == UndoAll(Apply(t, Steps(o, orig)), Steps(o, orig))
    case Over(_, Whole(o)) => now == UndoAll(Apply(t, Steps(o, orig)), Steps(o, orig))
    case Halted(o, done) => now == RolledBack(t, orig, o, done)
    case Over(_, Partly(o, done)) => now == RolledBack(t, orig, o, done)
    case Over(_, Nothing) => now == t
    case Illegal => true
  }

  lemma {:induction false} PhaseTellsTheTable(t: Table, orig: Default, trace: seq<Event>)
    requires !PhaseAfter(Idle, trace).Illegal?
    ensures TableIs(PhaseAfter(Idle, trace), t, orig, TableAfter(t, orig, trace))
  {
    if |trace| > 0 {
      PhaseTellsTheTable(t, orig, trace[..|trace| - 1]);
    }
  }

  /** Kill switch: from the successful setup to the cleanup, through every session, failed dial
      and retry delay, every destination that had matched at most a default route leaves by the
      tunnel interface; only the server keeps the original device. */
  lemma TunnelStaysInForce(c: Config, server: Addr, script: seq<Attempt>, t: Table, orig: Default, k: nat, i: nat, ip: Addr)
    requires k < i < |Behaviour(c, server, None, script).1|
    requires var trace := Behaviour(c, server, None, script).1;
             trace[k].Setup? && !trace[i].Close? && Usable(orig, trace[k].o.interface)
    requires forall q: Prefix :: Route4(q) in t && q.Valid() && q.Contains(ip) ==> q.bits == 0
    ensures var trace := Behaviour(c, server, None, script).1;
            var route := Lookup(TableAfter(t, orig, trace[..i]), ip);
            && TableAfter(t, orig, trace[..i]) == Apply(t, Steps(trace[k].o, orig))
            && route.Some?
            && (ip != trace[k].o.serverIP ==> route.value.dev == trace[k].o.interface)
  {
    var trace := Behaviour(c, server, None, script).1;
    RunsAreLegal(c, server, None, script);
    SetupStaysInForce(trace, t, orig, k, i);
    DefaultTrafficIsCaptured(t, trace[k].o, orig, ip);
  }

  lemma SetupStaysInForce(trace: seq<Event>, t: Table, orig: Default, k: nat, i: nat)
    requires k < i < |trace| && !PhaseAfter(Idle, trace).Illegal?
    requires trace[k].Setup? && !trace[i].Close?
    ensures TableAfter(t, orig, trace[..i]) == Apply(t, Steps(trace[k].o, orig))
  {
    PhaseStep(trace, i);
    PrefixIsLegal(trace, i);
    PhaseCounts(trace[..i]);
    PhaseParameters(trace[..i]);
    CountZero(trace[..i], (e: Event) => e.Setup?);
    assert trace[..i][k] == trace[k];
    PhaseTellsTheTable(t, orig, trace[..i]);
  }

  /** A table without these keys: the same table exactly when it had none of them. */
  ghost predicate Loses(t: Table, end: Table, keys: set<Key>) {
    end == t - keys && (end == t <==> t.Keys !! keys)
  }

  /** However a run ended, the table has lost exactly the keys its setup wrote: it is what it
      was if and only if none of them was there before. */
  lemma RunsRestoreTheTable(c: Config, server: Addr, script: seq<Attempt>, t: Table, orig: Default, i: nat)
    requires i < |Behaviour(c, server, None, script).1|
    ensures var trace := Behaviour(c, server, None, script).1;
            var end := TableAfter(t, orig, trace);
            match trace[i]
            case Setup(o) => Loses(t, end, Keys(Steps(o, orig)))
            case SetupStopped(o, done) => Loses(t, end, Keys(FirstSteps(o, orig, done)))
            case _ => Attempts(trace) == 0 ==> end == t
  {
    var trace := Behaviour(c, server, None, script).1;
    RunsAreLegal(c, server, None, script);
    PhaseCounts(trace);
    PhaseParameters(trace);
    PhaseTellsTheTable(t, orig, trace);
    match trace[i]
    case Setup(o) => RollbackRestores(t, o, orig, |Steps(o, orig)|);
    case SetupStopped(o, done) => RollbackRestores(t, o, orig, done);
    case _ =>
  }

  lemma RollbackRestores(t: Table, o: Options, orig: Default, done: nat)
    ensures Loses(t, RolledBack(t, orig, o, done), Keys(FirstSteps(o, orig, done)))
    ensures FirstSteps(o, orig, |Steps(o, orig)|) == Steps(o, orig)
  {
    StepsAreUndoable(o, orig);
    RollbackRestoresExactlyAbsentKeys(t, Steps(o, orig), Min(done, |Steps(o, orig)|));
  }
}
