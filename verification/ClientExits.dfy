/** What a run of the client does turn by turn, and exactly when it ends and how, in terms of the
    attempts alone. */
module ClientExits {
  import opened Prelude
  import opened Routes
  import opened ClientRun

  // ----- One attempt -----

  /** The attempt got this WELCOME: it echoes the session id and its MTU is in range. */
  predicate Answers(a: Attempt, w: Welcome) {
    a.welcome == Some(w) && w.sessionId == a.sessionId && 576 <= w.mtu <= 1500
  }

  /** The attempt got no WELCOME the client agrees to. */
  predicate Silent(a: Attempt) {
    a.welcome.None? || a.welcome.value.sessionId != a.sessionId || !(576 <= a.welcome.value.mtu <= 1500)
  }

  /** connect agrees to exactly the WELCOMEs that echo the session id with an MTU in range. */
  lemma AgreesExactlyToAnswers(a: Attempt, w: Welcome)
    ensures a.Agreed() == Some(w) <==> Answers(a, w)
    ensures a.Agreed() == None <==> Silent(a)
  {}

  /** The context lives and the retry delay passes. */
  predicate Pauses(a: Attempt) { !a.done && a.slept }

  /** The attempt's WELCOME is for this tunnel: its addresses, and the smaller of the two MTUs. */
  predicate Repeats(c: Config, o: Options, a: Attempt) {
    && !Silent(a)
    && a.welcome.value.address == Some(o.address) && a.welcome.value.gateway == Some(o.gateway)
    && Min(c.mtu, a.welcome.value.mtu) == o.mtu
  }

  /** The tunnel an attempt's WELCOME is for, with the device's name, the resolved server, and the
      configured name servers and IPv6 block. */
  predicate Means(c: Config, server: Addr, a: Attempt, o: Options) {
    Repeats(c, o, a) && o.interface == a.name && o.serverIP == server && o.dns == c.dns && o.blockIPv6 == c.blockIPv6
  }

  predicate BringsUp(c: Config, server: Addr, a: Attempt, o: Options) { a.bring.Works? && Means(c, server, a, o) }

  // ----- One turn -----

  /** What a turn is followed by: the release when the context is done or the delay was cut short,
      and otherwise the rest of the run. */
  ghost predicate EndsTurn(c: Config, server: Addr, script: seq<Attempt>, tunnel: Option<Options>, events: seq<Event>,
                           run: (Exit, seq<Event>))
    requires script != []
  {
    var rest := Behaviour(c, server, tunnel, script[1..]);
    var released := if tunnel.Some? then [Cleanup(tunnel.value), Close] else [];
    if script[0].done then run.0 == Stopped && run.1 == events + released
    else if !script[0].slept then run.0 == Stopped && run.1 == events + [Wait] + released
    else run.0 == rest.0 && run.1 == events + [Wait] + rest.1
  }

  /** A dial without an answer is followed by the delay and the rest, tunnel or not. */
  lemma UnansweredTurn(c: Config, server: Addr, tunnel: Option<Options>, script: seq<Attempt>)
    requires script != [] && Silent(script[0])
    ensures EndsTurn(c, server, script, tunnel, [Dial], Behaviour(c, server, tunnel, script))
  {}

  /** An established tunnel: a repeated WELCOME is a session of that tunnel, and another one with
      two addresses ends the run. */
  lemma EstablishedTurn(c: Config, server: Addr, o: Options, script: seq<Attempt>, w: Welcome)
    requires script != [] && Answers(script[0], w)
    ensures var run := Behaviour(c, server, Some(o), script); var released := [Dial, Cleanup(o), Close];
            if w.address.None? then run.0 == InvalidAddress && run.1 == released
            else if w.gateway.None? then run.0 == InvalidGateway && run.1 == released
            else if Repeats(c, o, script[0]) then
              EndsTurn(c, server, script, Some(o), [Dial, Session(o.address, o.mtu)], run)
            else run.0 == ParametersChanged && run.1 == released
  {
    assert Repeats(c, o, script[0]) <==> SameParameters(c, o, w);
  }

  /** The first answer: an invalid address ends the run at once, a device or a setup that fails
      ends it with the device closed, and otherwise the tunnel is brought up and its first session
      runs. */
  lemma FirstAnswer(c: Config, server: Addr, script: seq<Attempt>, w: Welcome) returns (o: Options)
    requires script != [] && Answers(script[0], w)
    ensures w.address.Some? && w.gateway.Some? && script[0].bring.Works? ==>
              && BringsUp(c, server, script[0], o)
              && EndsTurn(c, server, script, Some(o),
                          [Dial, Open(o.mtu, true), Setup(o), Spawn(o.address, o.mtu), Session(o.address, o.mtu)],
                          Behaviour(c, server, None, script))
    ensures var run := Behaviour(c, server, None, script); var m := Min(c.mtu, w.mtu);
            if w.address.None? then run.0 == InvalidAddress && run.1 == [Dial]
            else if w.gateway.None? then run.0 == InvalidGateway && run.1 == [Dial]
            else
              match script[0].bring
              case OpenFails => run.0 == OpenFailed && run.1 == [Dial, Open(m, false)]
              case NameFails => run.0 == NameFailed && run.1 == [Dial, Open(m, true), Close]
              case SetupFails(done) =>
                run.0 == SetupFailed && |run.1| == 4 && run.1[..2] == [Dial, Open(m, true)] && run.1[3] == Close
                && run.1[2].SetupStopped? && run.1[2].done == done && Means(c, server, script[0], run.1[2].o)
              case Works => true
  {
    if w.address.Some? && w.gateway.Some? {
      o := OptionsFor(c, server, script[0].name, w);
    } else {
      o := Options("", 0, 0, 0, 0, [], false);
    }
  }

  // ----- Many turns -----

  /** A dial and a delay, so many times. */
  function Retries(k: nat): (r: seq<Event>)
    ensures |r| == 2 * k && forall i :: 0 <= i < 2 * k ==> r[i] == if i % 2 == 0 then Dial else Wait
  {
    if k == 0 then [] else Retries(k - 1) + [Dial, Wait]
  }

  lemma {:induction false} RetriesFront(k: nat)
    requires k > 0
    ensures Retries(k) == [Dial, Wait] + Retries(k - 1)
  {}

  /** Behind any number of dials without an answer, tunnel or not, the run is the run of the rest,
      and each of those turns was one dial and one delay. */
  lemma {:induction false} FailedDialsAreRetried(c: Config, server: Addr, tunnel: Option<Options>, script: seq<Attempt>, k: nat)
    requires k <= |script| && forall j :: 0 <= j < k ==> Silent(script[j]) && Pauses(script[j])
    ensures var run, rest := Behaviour(c, server, tunnel, script), Behaviour(c, server, tunnel, script[k..]);
            run.0 == rest.0 && run.1 == Retries(k) + rest.1
  {
    if k == 0 {
      assert script[0..] == script;
    } else {
      UnansweredTurn(c, server, tunnel, script);
      FailedDialsAreRetried(c, server, tunnel, script[1..], k - 1);
      assert script[1..][k - 1..] == script[k..];
      RetriesFront(k);
      assert [Dial] + [Wait] == [Dial, Wait];
    }
  }

  // ----- Stopped -----

  /** An established tunnel keeps going through these turns. */
  predicate KeepsGoing(c: Config, o: Options, a: Attempt) { Pauses(a) && (Silent(a) || Repeats(c, o, a)) }

  /** In this turn, and not before, the context is done or the delay is cut short. */
  predicate StopsHere(c: Config, o: Options, a: Attempt) { !Pauses(a) && (Silent(a) || Repeats(c, o, a)) }

  /** The k-th turn is the one that ends so, or the end of the script is. */
  ghost predicate StopsAfter(c: Config, o: Options, script: seq<Attempt>, k: nat) {
    && k <= |script| && (forall j :: 0 <= j < k ==> KeepsGoing(c, o, script[j]))
    && (k < |script| ==> StopsHere(c, o, script[k]))
  }

  /** An established run stops with its context: in the first turn that ends so, or behind the
      whole script. */
  ghost predicate StopsEstablished(c: Config, o: Options, script: seq<Attempt>) {
    exists k: nat :: StopsAfter(c, o, script, k)
  }

  lemma StopsEstablishedStep(c: Config, o: Options, script: seq<Attempt>)
    requires script != []
    ensures StopsEstablished(c, o, script) <==>
            StopsHere(c, o, script[0]) || (KeepsGoing(c, o, script[0]) && StopsEstablished(c, o, script[1..]))
  {
    var rest := script[1..];
    if k: nat :| StopsAfter(c, o, script, k) {
      if k > 0 {
        assert forall j :: 0 <= j < k - 1 ==> rest[j] == script[j + 1];
        assert StopsAfter(c, o, rest, k - 1);
      }
    }
    if StopsHere(c, o, script[0]) {
      assert StopsAfter(c, o, script, 0);
    }
    if KeepsGoing(c, o, script[0]) && StopsEstablished(c, o, rest) {
      var k: nat :| StopsAfter(c, o, rest, k);
      forall j | 0 <= j < k + 1
        ensures KeepsGoing(c, o, script[j])
      {
        assert j > 0 ==> script[j] == rest[j - 1];
      }
      assert StopsAfter(c, o, script, k + 1);
    }
  }

  lemma {:induction false} EstablishedStopsExactlyWhen(c: Config, server: Addr, o: Options, script: seq<Attempt>)
    ensures Behaviour(c, server, Some(o), script).0 == Stopped <==> StopsEstablished(c, o, script)
  {
    if script == [] {
      assert StopsAfter(c, o, script, 0);
    } else {
      EstablishedStopsExactlyWhen(c, server, o, script[1..]);
      StopsEstablishedStep(c, o, script);
      if Silent(script[0]) {
        UnansweredTurn(c, server, Some(o), script);
      } else {
        EstablishedTurn(c, server, o, script, script[0].welcome.value);
      }
    }
  }

  /** So many turns without an answer, each followed by its delay. */
  ghost predicate UnansweredUpTo(script: seq<Attempt>, f: nat) {
    f <= |script| && forall j :: 0 <= j < f ==> Silent(script[j]) && Pauses(script[j])
  }

  /** The run stops in this turn, or in the established run it begins. */
  ghost predicate StopsAt(c: Config, server: Addr, script: seq<Attempt>, f: nat)
    requires f < |script|
  {
    || (Silent(script[f]) && !Pauses(script[f]))
    || (exists o :: BringsUp(c, server, script[f], o) && (Pauses(script[f]) ==> StopsEstablished(c, o, script[f + 1..])))
  }

  /** A run stops, with neither an error nor a changed tunnel, exactly when behind some turns
      without an answer whose delay passed: the script is over; or a turn without an answer ends
      with the context; or the first answer brings up a tunnel and either that turn ends with the
      context or the established run behind it does. */
  lemma StopsExactlyWhen(c: Config, server: Addr, script: seq<Attempt>)
    ensures Behaviour(c, server, None, script).0 == Stopped <==>
            exists f: nat :: UnansweredUpTo(script, f) && (f == |script| || StopsAt(c, server, script, f))
  {
    var f := Unanswered(script);
    FailedDialsAreRetried(c, server, None, script, f);
    if f < |script| {
      DecidingTurn(c, server, script, f);
    }
    assert UnansweredUpTo(script, f);
    if g: nat :| UnansweredUpTo(script, g) && (g == |script| || StopsAt(c, server, script, g)) {
      assert g == f;
    }
  }

  /** How many turns without an answer pass before anything else happens. */
  function Unanswered(script: seq<Attempt>): (f: nat)
    ensures f <= |script| && forall j :: 0 <= j < f ==> Silent(script[j]) && Pauses(script[j])
    ensures f < |script| ==> !(Silent(script[f]) && Pauses(script[f]))
  {
    if script == [] || !Silent(script[0]) || !Pauses(script[0]) then 0 else 1 + Unanswered(script[1..])
  }

  lemma DecidingTurn(c: Config, server: Addr, script: seq<Attempt>, f: nat)
    requires f < |script| && !(Silent(script[f]) && Pauses(script[f]))
    ensures Behaviour(c, server, None, script[f..]).0 == Stopped <==> StopsAt(c, server, script, f)
  {
    var rest := script[f..];
    assert rest[1..] == script[f + 1..];
    if Silent(script[f]) {
      UnansweredTurn(c, server, None, rest);
    } else {
      var w := script[f].welcome.value;
      var o := FirstAnswer(c, server, rest, w);
      EstablishedStopsExactlyWhen(c, server, o, script[f + 1..]);
      forall p | BringsUp(c, server, script[f], p)
        ensures p == o
      {
      }
    }
  }
}
