/** Client to server across reconnects: every packet a client accepted is injected at most once
    over the whole run of the server, and when the order holds. */
module UplinkReconnects {
  import opened Prelude
  import opened Frame
  import opened ServerUplink
  import S = ServerMachine
  import C = ClientMachine
  import D = ClientDownlink
  import T = ClientTraffic

  // ----- Entries of a shared log -----

  /** How many entries of its writer precede an entry. */
  function Rank<A>(log: seq<(nat, A)>, t: nat): nat
    requires t < |log|
  {
    |WrittenBy(log[..t], log[t].0)|
  }

  lemma {:induction false} SharesGrow<A>(log: seq<(nat, A)>, t: nat, u: nat, i: nat)
    requires t <= u <= |log|
    ensures WrittenBy(log[..t], i) <= WrittenBy(log[..u], i)
  {
    if t < u {
      SharesGrow(log, t, u - 1, i);
      assert log[..u] == log[..u - 1] + [log[u - 1]];
      WrittenByGrows(log[..u - 1], log[u - 1], i);
    }
  }

  /** An entry is found at its rank in its writer's share. */
  lemma EntryAtItsRank<A>(log: seq<(nat, A)>, t: nat)
    requires t < |log|
    ensures var share := WrittenBy(log, log[t].0); Rank(log, t) < |share| && share[Rank(log, t)] == log[t].1
  {
    assert log[..t + 1] == log[..t] + [log[t]];
    WrittenByGrows(log[..t], log[t], log[t].0);
    SharesGrow(log, t + 1, |log|, log[t].0);
    assert log[..|log|] == log;
  }

  lemma RanksGrow<A>(log: seq<(nat, A)>, t: nat, u: nat)
    requires t < u < |log| && log[t].0 == log[u].0
    ensures Rank(log, t) < Rank(log, u)
  {
    assert log[..t + 1] == log[..t] + [log[t]];
    WrittenByGrows(log[..t], log[t], log[t].0);
    SharesGrow(log, t + 1, u, log[t].0);
  }

  /** Every position of a share is the rank of some entry. */
  lemma {:induction false} EntryOf<A>(log: seq<(nat, A)>, i: nat, k: nat) returns (t: nat)
    requires k < |WrittenBy(log, i)|
    ensures t < |log| && log[t].0 == i && Rank(log, t) == k
  {
    var n := |log| - 1;
    if k < |WrittenBy(log[..n], i)| {
      t := EntryOf(log[..n], i, k);
      assert log[..n][..t] == log[..t];
    } else {
      t := n;
    }
  }

  // ----- The client's side -----

  /** Session and number of every connection write. */
  function Numbers(wire: seq<C.Sent>): seq<(nat, nat)> {
    seq(|wire|, (k: nat) requires k < |wire| => (wire[k].session, wire[k].n))
  }

  /** Every connection write carries the packet put with its number. */
  ghost predicate Carried(wire: seq<C.Sent>, put: seq<Packet>) {
    forall k :: 0 <= k < |wire| ==> wire[k].n < |put| && PayloadOf(wire[k].frame) == put[wire[k].n]
  }

  /** Frames of the packets put with these numbers. */
  ghost predicate Numbered(ns: seq<nat>, sent: seq<seq<Byte>>, put: seq<Packet>) {
    |ns| == |sent| && forall k: nat :: k < |ns| ==> ns[k] < |put| && PayloadOf(sent[k]) == put[ns[k]]
  }

  lemma {:induction false} SentByNumber(wire: seq<C.Sent>, put: seq<Packet>, j: nat)
    requires Carried(wire, put)
    ensures Numbered(WrittenBy(Numbers(wire), j), D.SentBy(wire, j), put)
  {
    if |wire| > 0 {
      var n := |wire| - 1;
      assert forall k :: 0 <= k < n ==> wire[..n][k] == wire[k];
      SentByNumber(wire[..n], put, j);
      assert Numbers(wire)[..n] == Numbers(wire[..n]);
      assert wire[n].n < |put| && PayloadOf(wire[n].frame) == put[wire[n].n];
    }
  }

  /** Only the last session writes, so the sessions of the writes never go back. */
  ghost predicate InSessionOrder(s: C.State) {
    forall j: nat, k: nat :: j < k < |s.wire| ==> s.wire[j].session <= s.wire[k].session
  }

  lemma WriteKeepsSessionOrder(c: C.Conf, s: C.State, i: nat, n: nat, p: Packet, ok: bool)
    requires T.Uplink(c, s) && InSessionOrder(s) && i < |s.sessions|
    ensures InSessionOrder(C.Written(s, i, n, p, ok))
  {}

  lemma StepKeepsSessionOrder(c: C.Conf, s: C.State, step: C.Step)
    requires T.Uplink(c, s) && InSessionOrder(s)
    ensures InSessionOrder(C.Next(c, s, step))
  {
    match step
    case Writer(i, w) =>
      if i < |s.sessions| {
        match (w, s.sessions[i].writer)
        case (Write(ok), Holding(n, p)) => WriteKeepsSessionOrder(c, s, i, n, p, ok);
        case _ =>
      }
    case _ =>
  }

  lemma {:induction false} EveryRunIsInSessionOrder(c: C.Conf, steps: seq<C.Step>)
    ensures InSessionOrder(C.Exec(c, steps))
  {
    if |steps| > 0 {
      EveryRunIsInSessionOrder(c, steps[..|steps| - 1]);
      T.EveryRunUplink(c, steps[..|steps| - 1]);
      StepKeepsSessionOrder(c, C.Exec(c, steps[..|steps| - 1]), steps[|steps| - 1]);
    }
  }

  /** The numbers of one session grow, and are below those of any later one. */
  lemma NumbersAreOrdered(c: C.Conf, steps: seq<C.Step>, i: nat, a: nat, j: nat, b: nat)
    requires var wire := Numbers(C.Exec(c, steps).wire);
             a < |WrittenBy(wire, i)| && b < |WrittenBy(wire, j)| && (i < j || (i == j && a < b))
    ensures var wire := Numbers(C.Exec(c, steps).wire); WrittenBy(wire, i)[a] < WrittenBy(wire, j)[b]
  {
    var wire := Numbers(C.Exec(c, steps).wire);
    NumbersAscend(c, steps);
    var t := EntryOf(wire, i, a);
    var u := EntryOf(wire, j, b);
    EntryAtItsRank(wire, t);
    EntryAtItsRank(wire, u);
    EntriesAscend(wire, t, u);
  }

  /** Sessions never go back, and numbers grow. */
  ghost predicate Ascending(log: seq<(nat, nat)>) {
    forall t: nat, u: nat :: t < u < |log| ==> log[t].0 <= log[u].0 && log[t].1 < log[u].1
  }

  lemma NumbersAscend(c: C.Conf, steps: seq<C.Step>)
    ensures Ascending(Numbers(C.Exec(c, steps).wire))
  {
    T.EveryRunUplink(c, steps);
    EveryRunIsInSessionOrder(c, steps);
  }

  lemma EntriesAscend(log: seq<(nat, nat)>, t: nat, u: nat)
    requires Ascending(log) && t < |log| && u < |log|
    requires log[t].0 < log[u].0 || (log[t].0 == log[u].0 && Rank(log, t) < Rank(log, u))
    ensures log[t].1 < log[u].1
  {
    if u < t && log[t].0 == log[u].0 {
      RanksGrow(log, u, t);
    }
  }

  // ----- Both ends -----

  /** Each of these server sessions received some first part of what its own session of this
      client sent. */
  ghost predicate Linked(c: S.Conf, s: S.State, cc: C.Conf, t: C.State, link: map<nat, nat>) {
    && (forall i :: i in link ==>
          i < |s.sessions| && s.sessions[i].id.addr == cc.address && s.sessions[i].received <= D.SentBy(t.wire, link[i]))
    && (forall i, j :: i in link && j in link && link[i] == link[j] ==> i == j)
  }

  /** A device write of this client's sessions. */
  predicate Injection(s: S.State, link: map<nat, nat>, t: nat) { t < |s.tun| && s.tun[t].0 in link }

  /** Which of the packets put by the client a device write is. */
  ghost function Position(s: S.State, t: C.State, link: map<nat, nat>, w: nat): nat
    requires Injection(s, link, w)
  {
    var numbers: seq<nat> := WrittenBy(Numbers(t.wire), link[s.tun[w].0]);
    if Rank(s.tun, w) < |numbers| then numbers[Rank(s.tun, w)] else 0
  }

  /** A device write is the payload of the message of the same rank. */
  lemma InjectedMessage(c: S.Conf, steps: seq<S.Step>, w: nat)
    requires w < |S.Exec(c, steps).tun| && S.Exec(c, steps).tun[w].0 < |S.Exec(c, steps).sessions|
    ensures var s := S.Exec(c, steps); var received := s.sessions[s.tun[w].0].received;
            Rank(s.tun, w) < |received| && PayloadOf(received[Rank(s.tun, w)]) == s.tun[w].1
  {
    var s := S.Exec(c, steps);
    var received := s.sessions[s.tun[w].0].received;
    EntryAtItsRank(s.tun, w);
    UplinkIsFaithful(c, steps, s.tun[w].0);
    assert Payloads(received)[Rank(s.tun, w)] == s.tun[w].1;
  }

  /** A frame a session sent is the frame of the packet put with its number. */
  lemma SentNumber(cc: C.Conf, steps: seq<C.Step>, j: nat, r: nat)
    requires r < |D.SentBy(C.Exec(cc, steps).wire, j)|
    ensures var t := C.Exec(cc, steps); var numbers: seq<nat> := WrittenBy(Numbers(t.wire), j);
            r < |numbers| && numbers[r] < |t.put| && PayloadOf(D.SentBy(t.wire, j)[r]) == t.put[numbers[r]]
  {
    WireCarriesPut(cc, steps);
    SentByNumber(C.Exec(cc, steps).wire, C.Exec(cc, steps).put, j);
  }

  lemma WireCarriesPut(cc: C.Conf, steps: seq<C.Step>)
    ensures Carried(C.Exec(cc, steps).wire, C.Exec(cc, steps).put)
  {
    T.WireIsInOrder(cc, steps);
  }

  lemma InjectionsHavePositions(c: S.Conf, steps: seq<S.Step>, cc: C.Conf, clientSteps: seq<C.Step>, link: map<nat, nat>, w: nat)
    requires Linked(c, S.Exec(c, steps), cc, C.Exec(cc, clientSteps), link) && Injection(S.Exec(c, steps), link, w)
    ensures var s, t := S.Exec(c, steps), C.Exec(cc, clientSteps);
            && Rank(s.tun, w) < |WrittenBy(Numbers(t.wire), link[s.tun[w].0])|
            && Position(s, t, link, w) < |t.put| && t.put[Position(s, t, link, w)] == s.tun[w].1
  {
    var s := S.Exec(c, steps);
    InjectedMessage(c, steps, w);
    assert s.sessions[s.tun[w].0].received <= D.SentBy(C.Exec(cc, clientSteps).wire, link[s.tun[w].0]);
    SentNumber(cc, clientSteps, link[s.tun[w].0], Rank(s.tun, w));
  }

  /** Two device writes of one client compare as their sessions do, and within a session in the
      order of writing. */
  lemma PositionsCompare(c: S.Conf, steps: seq<S.Step>, cc: C.Conf, clientSteps: seq<C.Step>, link: map<nat, nat>, w: nat, v: nat)
    requires var s := S.Exec(c, steps);
             Linked(c, s, cc, C.Exec(cc, clientSteps), link) && Injection(s, link, w) && Injection(s, link, v) && w != v
    requires var s := S.Exec(c, steps); link[s.tun[w].0] < link[s.tun[v].0] || (s.tun[w].0 == s.tun[v].0 && w < v)
    ensures var s, t := S.Exec(c, steps), C.Exec(cc, clientSteps); Position(s, t, link, w) < Position(s, t, link, v)
  {
    var s := S.Exec(c, steps);
    InjectionsHavePositions(c, steps, cc, clientSteps, link, w);
    InjectionsHavePositions(c, steps, cc, clientSteps, link, v);
    if s.tun[w].0 == s.tun[v].0 {
      RanksGrow(s.tun, w, v);
    }
    NumbersAreOrdered(cc, clientSteps, link[s.tun[w].0], Rank(s.tun, w), link[s.tun[v].0], Rank(s.tun, v));
  }

  /** Over any run of the client with any number of reconnects and any run of the server: what
      its sessions inject are packets the client accepted, byte for byte, and no accepted packet
      is injected twice, by one session or by two. */
  lemma EachPacketIsInjectedAtMostOnce(c: S.Conf, steps: seq<S.Step>, cc: C.Conf, clientSteps: seq<C.Step>,
                                       link: map<nat, nat>, w: nat, v: nat)
    requires var s := S.Exec(c, steps);
             Linked(c, s, cc, C.Exec(cc, clientSteps), link) && Injection(s, link, w) && Injection(s, link, v)
    ensures var s, t := S.Exec(c, steps), C.Exec(cc, clientSteps);
            && Position(s, t, link, w) < |t.put| && t.put[Position(s, t, link, w)] == s.tun[w].1
            && (w != v ==> Position(s, t, link, w) != Position(s, t, link, v))
  {
    var s := S.Exec(c, steps);
    InjectionsHavePositions(c, steps, cc, clientSteps, link, w);
    if w != v {
      if link[s.tun[w].0] < link[s.tun[v].0] || (s.tun[w].0 == s.tun[v].0 && w < v) {
        PositionsCompare(c, steps, cc, clientSteps, link, w, v);
      } else {
        PositionsCompare(c, steps, cc, clientSteps, link, v, w);
      }
    }
  }

  /** The device writes of a client are in the order in which it accepted the packets. */
  ghost predicate InOrder(s: S.State, t: C.State, link: map<nat, nat>) {
    forall w: nat, v: nat :: Injection(s, link, w) && Injection(s, link, v) && w < v ==>
      Position(s, t, link, w) < Position(s, t, link, v)
  }

  /** No session of a client injects once a later session of it has. */
  ghost predicate NoneOvertaken(s: S.State, link: map<nat, nat>) {
    forall w: nat, v: nat :: Injection(s, link, w) && Injection(s, link, v) && w < v ==>
      link[s.tun[w].0] <= link[s.tun[v].0]
  }

  /** Across reconnects order holds if and only if no session injects once a later session of the
      same client has injected. */
  lemma OrderHoldsExactlyWhenNoneIsOvertaken(c: S.Conf, steps: seq<S.Step>, cc: C.Conf, clientSteps: seq<C.Step>, link: map<nat, nat>)
    requires Linked(c, S.Exec(c, steps), cc, C.Exec(cc, clientSteps), link)
    ensures InOrder(S.Exec(c, steps), C.Exec(cc, clientSteps), link) <==> NoneOvertaken(S.Exec(c, steps), link)
  {
    var s, t := S.Exec(c, steps), C.Exec(cc, clientSteps);
    forall w: nat, v: nat | Injection(s, link, w) && Injection(s, link, v) && w < v
      ensures Position(s, t, link, w) < Position(s, t, link, v) <==> link[s.tun[w].0] <= link[s.tun[v].0]
    {
      if link[s.tun[w].0] <= link[s.tun[v].0] {
        PositionsCompare(c, steps, cc, clientSteps, link, w, v);
      } else {
        PositionsCompare(c, steps, cc, clientSteps, link, v, w);
      }
    }
  }
}
