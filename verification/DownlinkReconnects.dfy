/** Server to client across reconnects: every packet the server read is delivered at most once
    over the whole run of the client, and when the order holds. */
module DownlinkReconnects {
  import opened Prelude
  import opened Frame
  import opened ServerTraffic
  import opened ServerTurns
  import opened UplinkReconnects
  import S = ServerMachine
  import C = ClientMachine
  import D = ClientDownlink

  // ----- The server's side -----

  /** Session and position of every packet queued. */
  function Deliveries(outcomes: seq<S.Outcome>): seq<(nat, nat)> {
    if |outcomes| == 0 then []
    else
      var n := |outcomes| - 1;
      var rest := Deliveries(outcomes[..n]);
      if outcomes[n].Enqueued? then rest + [(outcomes[n].peer, n)] else rest
  }

  /** In order, and each for the outcome at its position. */
  ghost predicate Listed(log: seq<(nat, nat)>, outcomes: seq<S.Outcome>) {
    && (forall t: nat :: t < |log| ==>
          log[t].1 < |outcomes| && outcomes[log[t].1].Enqueued? && outcomes[log[t].1].peer == log[t].0)
    && (forall t: nat, u: nat :: t < u < |log| ==> log[t].1 < log[u].1)
  }

  lemma {:induction false} DeliveriesAreListed(outcomes: seq<S.Outcome>)
    ensures Listed(Deliveries(outcomes), outcomes)
  {
    if |outcomes| > 0 {
      DeliveriesAreListed(outcomes[..|outcomes| - 1]);
    }
  }

  /** The packets at these positions. */
  ghost predicate At(ns: seq<nat>, packets: seq<Packet>, outcomes: seq<S.Outcome>, i: nat) {
    |ns| == |packets| && forall k: nat :: k < |ns| ==> ns[k] < |outcomes| && outcomes[ns[k]] == S.Enqueued(packets[k], i)
  }

  lemma {:induction false} EnqueuedAt(outcomes: seq<S.Outcome>, i: nat)
    ensures At(WrittenBy(Deliveries(outcomes), i), EnqueuedTo(outcomes, i), outcomes, i)
  {
    if |outcomes| > 0 {
      var n := |outcomes| - 1;
      EnqueuedAt(outcomes[..n], i);
      if outcomes[n].Enqueued? {
        WrittenByGrows(Deliveries(outcomes[..n]), (outcomes[n].peer, n), i);
      }
    }
  }

  /** The position of the k-th packet queued for a session. */
  lemma PositionOf(outcomes: seq<S.Outcome>, i: nat, k: nat) returns (t: nat)
    requires k < |WrittenBy(Deliveries(outcomes), i)|
    ensures var log := Deliveries(outcomes); t < |log| && log[t] == (i, WrittenBy(log, i)[k]) && Rank(log, t) == k
  {
    t := EntryOf(Deliveries(outcomes), i, k);
    EntryAtItsRank(Deliveries(outcomes), t);
  }

  /** Packets of one session are queued in order, and packets of sessions of one address in the
      order of the registrations. */
  lemma PositionsAreOrdered(h: History, ss: seq<S.Session>, outcomes: seq<S.Outcome>, i: nat, a: nat, j: nat, b: nat)
    requires QueuedInTurn(h, ss, outcomes) && SameAddress(ss, i, j)
    requires var log := Deliveries(outcomes); a < |WrittenBy(log, i)| && b < |WrittenBy(log, j)|
    requires Turn(h, i) < Turn(h, j) || (i == j && a < b)
    ensures var log := Deliveries(outcomes); WrittenBy(log, i)[a] < WrittenBy(log, j)[b]
  {
    DeliveriesAreListed(outcomes);
    var t := PositionOf(outcomes, i, a);
    var u := PositionOf(outcomes, j, b);
    if i == j {
      EntriesKeepOrder(Deliveries(outcomes), outcomes, t, u);
    } else {
      RivalsTakeTurns(h, ss, outcomes, Deliveries(outcomes)[t].1, Deliveries(outcomes)[u].1);
    }
  }

  lemma EntriesKeepOrder(log: seq<(nat, nat)>, outcomes: seq<S.Outcome>, t: nat, u: nat)
    requires Listed(log, outcomes) && t < |log| && u < |log| && log[t].0 == log[u].0 && Rank(log, t) < Rank(log, u)
    ensures log[t].1 < log[u].1
  {
    if u < t {
      RanksGrow(log, u, t);
    }
  }

  lemma RivalsTakeTurns(h: History, ss: seq<S.Session>, outcomes: seq<S.Outcome>, n: nat, m: nat)
    requires QueuedInTurn(h, ss, outcomes) && n < |outcomes| && m < |outcomes| && Rivals(ss, outcomes[m], outcomes[n])
    requires Turn(h, outcomes[n].peer) < Turn(h, outcomes[m].peer)
    ensures n < m
  {}

  // ----- Both ends -----

  /** Each of these client sessions received some first part of what its own server session, for
      this client's address, sent. */
  ghost predicate Linked(s: S.State, cc: C.Conf, t: C.State, link: map<nat, nat>) {
    && (forall j :: j in link ==>
          j < |t.sessions| && link[j] < |s.sessions| && s.sessions[link[j]].id.addr == cc.address
          && t.sessions[j].received <= s.sessions[link[j]].frames)
    && (forall i, j :: i in link && j in link && link[i] == link[j] ==> i == j)
  }

  predicate Delivery(t: C.State, link: map<nat, nat>, w: nat) { w < |t.device| && t.device[w].0 in link }

  /** Which of the server's device reads a delivery is. */
  ghost function Position(s: S.State, t: C.State, link: map<nat, nat>, w: nat): nat
    requires Delivery(t, link, w)
  {
    var numbers: seq<nat> := WrittenBy(Deliveries(s.outcomes), link[t.device[w].0]);
    if Rank(t.device, w) < |numbers| then numbers[Rank(t.device, w)] else 0
  }

  /** A delivery is the payload of the message of the same rank. */
  lemma DeliveredMessage(cc: C.Conf, steps: seq<C.Step>, w: nat)
    requires w < |C.Exec(cc, steps).device| && C.Exec(cc, steps).device[w].0 < |C.Exec(cc, steps).sessions|
    ensures var t := C.Exec(cc, steps); var received := t.sessions[t.device[w].0].received;
            Rank(t.device, w) < |received| && PayloadOf(received[Rank(t.device, w)]) == t.device[w].1
  {
    var t := C.Exec(cc, steps);
    EntryAtItsRank(t.device, w);
    D.DeliveryIsFaithful(cc, steps, t.device[w].0);
    assert Payloads(t.sessions[t.device[w].0].received)[Rank(t.device, w)] == t.device[w].1;
  }

  /** A frame a session sent is the frame of the packet queued at its position. */
  lemma SentPosition(c: S.Conf, steps: seq<S.Step>, i: nat, r: nat)
    requires i < |S.Exec(c, steps).sessions| && r < |S.Exec(c, steps).sessions[i].frames|
    ensures var s := S.Exec(c, steps); var numbers: seq<nat> := WrittenBy(Deliveries(s.outcomes), i);
            r < |numbers| && numbers[r] < |s.outcomes|
            && s.outcomes[numbers[r]] == S.Enqueued(PayloadOf(s.sessions[i].frames[r]), i)
  {
    var s := S.Exec(c, steps);
    DownlinkIsFaithful(c, steps, i);
    EnqueuedAt(s.outcomes, i);
    assert EnqueuedTo(s.outcomes, i)[r] == Payloads(s.sessions[i].frames)[r];
  }

  lemma DeliveriesHavePositions(c: S.Conf, steps: seq<S.Step>, cc: C.Conf, clientSteps: seq<C.Step>, link: map<nat, nat>, w: nat)
    requires Linked(S.Exec(c, steps), cc, C.Exec(cc, clientSteps), link) && Delivery(C.Exec(cc, clientSteps), link, w)
    ensures var s, t := S.Exec(c, steps), C.Exec(cc, clientSteps); var j := t.device[w].0;
            && Rank(t.device, w) < |WrittenBy(Deliveries(s.outcomes), link[j])|
            && Position(s, t, link, w) < |s.outcomes|
            && s.outcomes[Position(s, t, link, w)] == S.Enqueued(t.device[w].1, link[j])
  {
    var t := C.Exec(cc, clientSteps);
    DeliveredMessage(cc, clientSteps, w);
    assert t.sessions[t.device[w].0].received <= S.Exec(c, steps).sessions[link[t.device[w].0]].frames;
    SentPosition(c, steps, link[t.device[w].0], Rank(t.device, w));
  }

  /** The turn of the server session behind a delivery. */
  ghost function TurnOf(s: S.State, t: C.State, link: map<nat, nat>, w: nat): nat
    requires Delivery(t, link, w)
  {
    Turn(s.history, link[t.device[w].0])
  }

  lemma PositionsCompare(c: S.Conf, steps: seq<S.Step>, cc: C.Conf, clientSteps: seq<C.Step>, link: map<nat, nat>, w: nat, v: nat)
    requires var t := C.Exec(cc, clientSteps);
             Linked(S.Exec(c, steps), cc, t, link) && Delivery(t, link, w) && Delivery(t, link, v)
    requires var s, t := S.Exec(c, steps), C.Exec(cc, clientSteps);
             TurnOf(s, t, link, w) < TurnOf(s, t, link, v) || (t.device[w].0 == t.device[v].0 && w < v)
    ensures var s, t := S.Exec(c, steps), C.Exec(cc, clientSteps); Position(s, t, link, w) < Position(s, t, link, v)
  {
    var t := C.Exec(cc, clientSteps);
    DeliveriesHavePositions(c, steps, cc, clientSteps, link, w);
    DeliveriesHavePositions(c, steps, cc, clientSteps, link, v);
    if t.device[w].0 == t.device[v].0 && w < v {
      RanksGrow(t.device, w, v);
    }
    var s := S.Exec(c, steps);
    EveryRunKeepsTurns(c, steps);
    PositionsAreOrdered(s.history, s.sessions, s.outcomes, link[t.device[w].0], Rank(t.device, w), link[t.device[v].0], Rank(t.device, v));
  }

  /** Two deliveries are of one session, or their server sessions registered one after the
      other. */
  lemma TurnsDiffer(c: S.Conf, steps: seq<S.Step>, cc: C.Conf, clientSteps: seq<C.Step>, link: map<nat, nat>, w: nat, v: nat)
    requires var t := C.Exec(cc, clientSteps);
             Linked(S.Exec(c, steps), cc, t, link) && Delivery(t, link, w) && Delivery(t, link, v)
    requires var s, t := S.Exec(c, steps), C.Exec(cc, clientSteps); TurnOf(s, t, link, w) == TurnOf(s, t, link, v)
    ensures C.Exec(cc, clientSteps).device[w].0 == C.Exec(cc, clientSteps).device[v].0
  {
    var s, t := S.Exec(c, steps), C.Exec(cc, clientSteps);
    DeliveriesHavePositions(c, steps, cc, clientSteps, link, w);
    DeliveriesHavePositions(c, steps, cc, clientSteps, link, v);
    EveryRunKeepsTurns(c, steps);
    assert Queues(s.outcomes[Position(s, t, link, w)]) && Queues(s.outcomes[Position(s, t, link, v)]);
    TurnIsARegistration(s.history, link[t.device[w].0]);
    TurnIsARegistration(s.history, link[t.device[v].0]);
  }

  /** Over any run of the server and any run of the client with any number of reconnects: what
      its sessions deliver are packets the server read for it and queued, byte for byte, and no
      read is delivered twice, by one session or by two. */
  lemma EachPacketIsDeliveredAtMostOnce(c: S.Conf, steps: seq<S.Step>, cc: C.Conf, clientSteps: seq<C.Step>,
                                        link: map<nat, nat>, w: nat, v: nat)
    requires var t := C.Exec(cc, clientSteps);
             Linked(S.Exec(c, steps), cc, t, link) && Delivery(t, link, w) && Delivery(t, link, v)
    ensures var s, t := S.Exec(c, steps), C.Exec(cc, clientSteps);
            && Position(s, t, link, w) < |s.outcomes|
            && s.outcomes[Position(s, t, link, w)] == S.Enqueued(t.device[w].1, link[t.device[w].0])
            && (w != v ==> Position(s, t, link, w) != Position(s, t, link, v))
  {
    var s, t := S.Exec(c, steps), C.Exec(cc, clientSteps);
    DeliveriesHavePositions(c, steps, cc, clientSteps, link, w);
    if w != v {
      if TurnOf(s, t, link, w) == TurnOf(s, t, link, v) {
        TurnsDiffer(c, steps, cc, clientSteps, link, w, v);
      }
      if TurnOf(s, t, link, w) < TurnOf(s, t, link, v) || (t.device[w].0 == t.device[v].0 && w < v) {
        PositionsCompare(c, steps, cc, clientSteps, link, w, v);
      } else {
        PositionsCompare(c, steps, cc, clientSteps, link, v, w);
      }
    }
  }

  /** The deliveries are in the order in which the server read the packets. */
  ghost predicate InOrder(s: S.State, t: C.State, link: map<nat, nat>) {
    forall w: nat, v: nat :: Delivery(t, link, w) && Delivery(t, link, v) && w < v ==>
      Position(s, t, link, w) < Position(s, t, link, v)
  }

  /** No session delivers once one whose server session registered later has. */
  ghost predicate NoneOvertaken(s: S.State, t: C.State, link: map<nat, nat>) {
    forall w: nat, v: nat :: Delivery(t, link, w) && Delivery(t, link, v) && w < v ==>
      TurnOf(s, t, link, w) <= TurnOf(s, t, link, v)
  }

  /** Across reconnects order holds if and only if no session delivers once another has whose
      server session registered later. */
  lemma OrderHoldsExactlyWhenNoneIsOvertaken(c: S.Conf, steps: seq<S.Step>, cc: C.Conf, clientSteps: seq<C.Step>, link: map<nat, nat>)
    requires Linked(S.Exec(c, steps), cc, C.Exec(cc, clientSteps), link)
    ensures InOrder(S.Exec(c, steps), C.Exec(cc, clientSteps), link) <==>
            NoneOvertaken(S.Exec(c, steps), C.Exec(cc, clientSteps), link)
  {
    forall w: nat, v: nat | Delivery(C.Exec(cc, clientSteps), link, w) && Delivery(C.Exec(cc, clientSteps), link, v) && w < v
      ensures Agree(S.Exec(c, steps), C.Exec(cc, clientSteps), link, w, v)
    {
      OnePairCompares(c, steps, cc, clientSteps, link, w, v);
    }
    PairsDecide(S.Exec(c, steps), C.Exec(cc, clientSteps), link);
  }

  ghost predicate Agree(s: S.State, t: C.State, link: map<nat, nat>, w: nat, v: nat)
    requires Delivery(t, link, w) && Delivery(t, link, v)
  {
    Position(s, t, link, w) < Position(s, t, link, v) <==> TurnOf(s, t, link, w) <= TurnOf(s, t, link, v)
  }

  lemma PairsDecide(s: S.State, t: C.State, link: map<nat, nat>)
    requires forall w: nat, v: nat :: Delivery(t, link, w) && Delivery(t, link, v) && w < v ==> Agree(s, t, link, w, v)
    ensures InOrder(s, t, link) <==> NoneOvertaken(s, t, link)
  {}

  lemma OnePairCompares(c: S.Conf, steps: seq<S.Step>, cc: C.Conf, clientSteps: seq<C.Step>, link: map<nat, nat>, w: nat, v: nat)
    requires var t := C.Exec(cc, clientSteps);
             Linked(S.Exec(c, steps), cc, t, link) && Delivery(t, link, w) && Delivery(t, link, v) && w < v
    ensures Agree(S.Exec(c, steps), C.Exec(cc, clientSteps), link, w, v)
  {
    var s, t := S.Exec(c, steps), C.Exec(cc, clientSteps);
    if TurnOf(s, t, link, w) == TurnOf(s, t, link, v) {
      TurnsDiffer(c, steps, cc, clientSteps, link, w, v);
    }
    if TurnOf(s, t, link, w) <= TurnOf(s, t, link, v) {
      PositionsCompare(c, steps, cc, clientSteps, link, w, v);
    } else {
      PositionsCompare(c, steps, cc, clientSteps, link, v, w);
    }
  }
}
