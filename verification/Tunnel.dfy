/** One server session on the heap, without interference (internal/server/server.go:201-246):
    Register, the read loop and the deferred Unregister and cancel. */
module Tunnel {
  import opened Prelude
  import opened Frame
  import opened Ipv4
  import opened HubSpec
  import opened Hub
  import ServerMachine
  import ServerUplink

  /** What one turn of the loop meets. */
  datatype Round = Round(
    stop: bool,                        // the context is done or the write loop has ended
    message: Option<seq<Byte>>,        // None: the read failed, or the message is not binary
    written: bool)                     // whether a device write succeeds

  /** What a session did: its device writes and its counters. */
  datatype Books = Books(log: seq<Packet>, invalid: int, packets: int, bytes: int)

  /** How a round ends: the session leaves, refuses the message, writes its packet, or fails to. */
  datatype Verdict = Leave | Refuse | Inject(packet: Packet) | WriteFails

  function VerdictOf(r: Round, a: Addr, mtu: int): Verdict {
    if r.stop || r.message.None? then Leave
    else
      match ServerMachine.ServerAccepts(r.message.value, a, mtu)
      case None => Refuse
      case Some(p) => if r.written then Inject(p) else WriteFails
  }

  function Verdicts(rounds: seq<Round>, a: Addr, mtu: int): seq<Verdict> {
    seq(|rounds|, (k: nat) requires k < |rounds| => VerdictOf(rounds[k], a, mtu))
  }

  /** What the session did once it has met these verdicts. */
  function Served(b: Books, verdicts: seq<Verdict>): Books
    decreases |verdicts|
  {
    if verdicts == [] then b
    else
      match verdicts[0]
      case Inject(p) =>
        Served(b.(log := b.log + [p], packets := b.packets + 1, bytes := b.bytes + |p|), verdicts[1..])
      case Refuse => b.(invalid := b.invalid + 1)
      case _ => b
  }

  function Packets(verdicts: seq<Verdict>, n: nat): seq<Packet>
    requires n <= |verdicts| && forall k :: 0 <= k < n ==> verdicts[k].Inject?
  {
    seq(n, (k: nat) requires k < n => verdicts[k].packet)
  }

  lemma PacketsFront(verdicts: seq<Verdict>, m: nat)
    requires m < |verdicts| && verdicts[0].Inject? && forall k :: 0 <= k < m ==> verdicts[1..][k].Inject?
    ensures forall k :: 0 <= k < m + 1 ==> verdicts[k].Inject?
    ensures Packets(verdicts, m + 1) == [verdicts[0].packet] + Packets(verdicts[1..], m)
  {
    assert forall k :: 0 < k < m + 1 ==> verdicts[k] == verdicts[1..][k - 1];
  }

  lemma {:induction false} ServedInjects(b: Books, verdicts: seq<Verdict>) returns (n: nat)
    ensures n <= |verdicts| && forall k :: 0 <= k < n ==> verdicts[k].Inject?
    ensures n < |verdicts| ==> !verdicts[n].Inject?
    ensures var s, packets := Served(b, verdicts), Packets(verdicts, n);
            && s.log == b.log + packets && s.packets == b.packets + n
            && s.bytes == b.bytes + Sum(packets, (p: Packet) => |p|)
            && s.invalid == b.invalid + (if n < |verdicts| && verdicts[n].Refuse? then 1 else 0)
    decreases |verdicts|
  {
    n := 0;
    if verdicts != [] && verdicts[0].Inject? {
      var p := verdicts[0].packet;
      var m := ServedInjects(b.(log := b.log + [p], packets := b.packets + 1, bytes := b.bytes + |p|), verdicts[1..]);
      n := m + 1;
      PacketsFront(verdicts, m);
      SumFront(p, Packets(verdicts[1..], m), (p: Packet) => |p|);
    }
  }

  /** What becomes of a round, in terms of the message: it is injected exactly when it frames a
      genuine packet and the device takes it, and refused exactly when it was read and frames
      none. */
  lemma VerdictsAreExact(r: Round, a: Addr, mtu: int, p: Packet)
    ensures VerdictOf(r, a, mtu) == Inject(p) <==>
            !r.stop && r.written && r.message.Some? && CarriesPacket(r.message.value, p) && ServerUplink.Genuine(p, a, mtu)
    ensures VerdictOf(r, a, mtu) == Refuse <==>
            !r.stop && r.message.Some?
            && forall q: Packet :: CarriesPacket(r.message.value, q) ==> !ServerUplink.Genuine(q, a, mtu)
  {
    if r.message.Some? {
      forall q: Packet
        ensures ServerMachine.ServerAccepts(r.message.value, a, mtu) == Some(q) <==>
                ServerUplink.Genuine(q, a, mtu) && CarriesPacket(r.message.value, q)
      {
        ServerUplink.AcceptsExactlyGenuine(r.message.value, a, mtu, q);
      }
    }
  }

  lemma InjectedIsGenuine(r: Round, a: Addr, mtu: int, p: Packet)
    requires VerdictOf(r, a, mtu) == Inject(p)
    ensures !r.stop && r.message.Some? && r.written && p == PayloadOf(r.message.value) && ServerUplink.Genuine(p, a, mtu)
  {
    ServerUplink.AcceptedIsGenuine(r.message.value, a, mtu, p);
  }

  /** A session injects, in order and byte for byte, the packets of its first n messages, all
      genuine, and each is counted once with its bytes. What ends it behind them is no further
      message that could be injected, and it is counted invalid exactly when that was a message
      the checks refuse. */
  lemma SessionInjectsWhatItReceives(b: Books, rounds: seq<Round>, a: Addr, mtu: int) returns (n: nat)
    ensures n <= |rounds| && forall k :: 0 <= k < n ==> rounds[k].message.Some?
    ensures forall k :: 0 <= k < n ==> ServerUplink.Genuine(PayloadOf(rounds[k].message.value), a, mtu)
    ensures n < |rounds| ==> !VerdictOf(rounds[n], a, mtu).Inject?
    ensures var s, packets := Served(b, Verdicts(rounds, a, mtu)), seq(n, (k: nat) requires k < n => PayloadOf(rounds[k].message.value));
            && s.log == b.log + packets && s.packets == b.packets + n
            && s.bytes == b.bytes + Sum(packets, (p: Packet) => |p|)
            && s.invalid == b.invalid + (if n < |rounds| && VerdictOf(rounds[n], a, mtu).Refuse? then 1 else 0)
  {
    var verdicts := Verdicts(rounds, a, mtu);
    n := ServedInjects(b, verdicts);
    forall k | 0 <= k < n
      ensures rounds[k].message.Some? && ServerUplink.Genuine(PayloadOf(rounds[k].message.value), a, mtu)
      ensures Packets(verdicts, n)[k] == PayloadOf(rounds[k].message.value)
    {
      InjectedIsGenuine(rounds[k], a, mtu, verdicts[k].packet);
    }
    assert Packets(verdicts, n) == seq(n, (k: nat) requires k < n => PayloadOf(rounds[k].message.value));
  }

  lemma {:induction false} SumFront<T>(x: T, xs: seq<T>, f: T -> nat)
    ensures Sum([x] + xs, f) == f(x) + Sum(xs, f)
  {
    if |xs| == 0 {
      assert [x] + xs == [] + [x];
      SumAppend([], x, f);
    } else {
      assert [x] + xs == ([x] + xs[..|xs| - 1]) + [xs[|xs| - 1]];
      SumFront(x, xs[..|xs| - 1], f);
      SumAppend([x] + xs[..|xs| - 1], xs[|xs| - 1], f);
    }
  }

  /** The server's device, as a log of writes. */
  class Tun {
    var log: seq<Packet>

    constructor ()
      ensures log == []
    {
      log := [];
    }

    method WritePacket(packet: array<Byte>, succeeds: bool) returns (ok: bool)
      modifies this
      ensures ok == succeeds && log == if ok then old(log) + [packet[..]] else old(log)
    {
      ok := succeeds;
      if ok {
        log := log + [packet[..]];
      }
    }
  }

  ghost function BooksOf(tun: Tun, m: Counters): Books
    reads tun, m
  {
    Books(tun.log, m.invalid, m.packetsToTun, m.bytesToTun)
  }

  /** A message as it arrives: a fresh buffer. */
  method Arrive(message: seq<Byte>) returns (raw: array<Byte>)
    ensures fresh(raw) && raw[..] == message
  {
    raw := new Byte[|message|];
    forall k | 0 <= k < |message| {
      raw[k] := message[k];
    }
  }

  /** Decoding and checking one message (server.go:228-237): the payload if all checks pass. */
  method Check(raw: array<Byte>, a: Addr, mtu: int) returns (payload: Option<array<Byte>>)
    ensures match payload
            case None => ServerMachine.ServerAccepts(raw[..], a, mtu) == None
            case Some(p) => fresh(p) && ServerMachine.ServerAccepts(raw[..], a, mtu) == Some(p[..])
  {
    var frame := Decode(raw);
    if frame.Failure? || frame.value.0 != TYPE_PACKET {
      return None;
    }
    var body := frame.value.2;
    var addresses := SourceDestination(body[..]);
    if addresses.Failure? || addresses.value.0 != a || body.Length > mtu {
      return None;
    }
    payload := Some(body);
  }

  /** One round (server.go:215-245); false when it ends the session. */
  method ServeRound(a: Addr, mtu: int, r: Round, tun: Tun, metrics: Counters) returns (more: bool)
    modifies tun, metrics`invalid, metrics`packetsToTun, metrics`bytesToTun
    ensures more == VerdictOf(r, a, mtu).Inject?
    ensures var b := old(BooksOf(tun, metrics));
            BooksOf(tun, metrics) ==
            match VerdictOf(r, a, mtu)
            case Inject(p) => b.(log := b.log + [p], packets := b.packets + 1, bytes := b.bytes + |p|)
            case Refuse => b.(invalid := b.invalid + 1)
            case _ => b
  {
    if r.stop || r.message.None? {
      return false;
    }
    var raw := Arrive(r.message.value);
    var payload := Check(raw, a, mtu);
    if payload.None? {
      metrics.invalid := metrics.invalid + 1;
      return false;
    }
    more := tun.WritePacket(payload.value, r.written);
    if more {
      metrics.packetsToTun := metrics.packetsToTun + 1;
      metrics.bytesToTun := metrics.bytesToTun + payload.value.Length;
    }
  }

  /** The read loop, behind whose script the context is done. */
  method ReadLoop(a: Addr, mtu: int, rounds: seq<Round>, tun: Tun, metrics: Counters)
    modifies tun, metrics`invalid, metrics`packetsToTun, metrics`bytesToTun
    ensures BooksOf(tun, metrics) == Served(old(BooksOf(tun, metrics)), Verdicts(rounds, a, mtu))
  {
    var more, i := true, 0;
    ghost var verdicts := Verdicts(rounds, a, mtu);
    while more && i < |rounds|
      invariant 0 <= i <= |rounds|
      invariant (if more then Served(BooksOf(tun, metrics), verdicts[i..]) else BooksOf(tun, metrics)) ==
                Served(old(BooksOf(tun, metrics)), verdicts)
    {
      assert verdicts[i..][0] == VerdictOf(rounds[i], a, mtu) && verdicts[i..][1..] == verdicts[i + 1..];
      more := ServeRound(a, mtu, rounds[i], tun, metrics);
      i := i + 1;
    }
  }

  /** Installing a peer and evicting it again leaves the rest of the registry. */
  lemma ComesAndGoes<P>(peers: map<Addr, P>, a: Addr, p: P)
    ensures Evict(peers[a := p], a, p) == peers - {a}
  {
    assert peers[a := p] - {a} == peers - {a};
  }

  /** A registered session: the read loop, then the deferred Unregister and cancel. */
  method Attend(hub: Hub, peer: Peer, mtu: int, rounds: seq<Round>, tun: Tun, ghost before: map<Addr, Peer>)
    requires hub.Valid() && hub.peers == before[peer.addr := peer]
    modifies hub`peers, hub.metrics, peer`cancelled, tun
    ensures hub.Valid() && hub.peers == before - {peer.addr} && peer.cancelled
    ensures BooksOf(tun, hub.metrics) == Served(old(BooksOf(tun, hub.metrics)), Verdicts(rounds, peer.addr, mtu))
    ensures hub.metrics.activeSessions == old(hub.metrics.activeSessions) - 1
  {
    ComesAndGoes(before, peer.addr, peer);
    ReadLoop(peer.addr, mtu, rounds, tun, hub.metrics);
    ghost var books := BooksOf(tun, hub.metrics);
    hub.Unregister(peer);
    assert BooksOf(tun, hub.metrics) == books;
    peer.Cancel();
  }

  /** A whole session: refused at capacity without a trace; otherwise it displaces and cancels
      the owner of its address, serves its rounds, and leaves no entry at the address, its own
      context cancelled, and the gauge lower by the displaced entry if there was one. */
  method Serve(hub: Hub, peer: Peer, mtu: int, rounds: seq<Round>, tun: Tun) returns (served: bool)
    requires hub.Valid() && |peer.send| <= peer.capacity && peer !in hub.peers.Values
    modifies hub`peers, hub.metrics, hub.peers.Values`cancelled, peer`cancelled, tun
    ensures hub.Valid() && peer.cancelled
    ensures served <==> peer.addr in old(hub.peers) || |old(hub.peers)| < hub.max
    ensures hub.peers == if served then old(hub.peers) - {peer.addr} else old(hub.peers)
    ensures BooksOf(tun, hub.metrics) ==
            if served then Served(old(BooksOf(tun, hub.metrics)), Verdicts(rounds, peer.addr, mtu))
            else old(BooksOf(tun, hub.metrics))
    ensures hub.metrics.activeSessions ==
            old(hub.metrics.activeSessions) - (if served && peer.addr in old(hub.peers) then 1 else 0)
    ensures forall p: Peer :: p in old(hub.peers.Values) ==>
              p.cancelled == (old(p.cancelled) || (served && Owner(old(hub.peers), peer.addr) == Some(p)))
  {
    ghost var before := hub.peers;
    served := hub.Register(peer);
    if served {
      Attend(hub, peer, mtu, rounds, tun, before);
    } else {
      peer.Cancel();
    }
  }
}
