/** The hub, the packet loop and the write loop on the heap (internal/core/hub.go,
    internal/server/server.go): the same registry operations as HubSpec, on peer objects whose
    queues hold byte arrays, with one read buffer reused for every packet. Each method runs
    here without interference; the interleavings are in ServerMachine. */
module Hub {
  import opened Prelude
  import opened Frame
  import opened HubSpec
  import opened Ipv4

  /** The packets held by a queue of byte arrays. */
  ghost function Contents(queue: seq<array<Byte>>): seq<Packet>
    reads queue
  {
    seq(|queue|, (k: nat) requires k < |queue| reads queue => queue[k][..])
  }

  class Counters {
    var activeSessions: int
    var accepted: int
    var packetsFromTun: int
    var packetsToTun: int
    var bytesFromTun: int
    var bytesToTun: int
    var dropped: int
    var invalid: int

    constructor ()
      ensures activeSessions == accepted == packetsFromTun == packetsToTun == bytesFromTun == bytesToTun == 0
      ensures dropped == invalid == 0
    {
      activeSessions, accepted, packetsFromTun, packetsToTun, bytesFromTun, bytesToTun := 0, 0, 0, 0, 0, 0;
      dropped, invalid := 0, 0;
    }
  }

  class Peer {
    const name: string
    const addr: Addr
    const capacity: nat
    var send: seq<array<Byte>>
    var cancelled: bool

    constructor (name: string, addr: Addr, capacity: nat)
      ensures this.name == name && this.addr == addr && this.capacity == capacity
      ensures send == [] && !cancelled
    {
      this.name, this.addr, this.capacity := name, addr, capacity;
      send, cancelled := [], false;
    }

    method Cancel()
      modifies this`cancelled
      ensures cancelled
    {
      cancelled := true;
    }

    /** The select with a default branch of hub.go:66-72. */
    method Offer(packet: array<Byte>) returns (ok: bool)
      modifies this`send
      ensures ok <==> |old(send)| < capacity
      ensures send == if ok then old(send) + [packet] else old(send)
    {
      ok := |send| < capacity;
      if ok {
        send := send + [packet];
      }
    }
  }

  class Hub {
    var peers: map<Addr, Peer>
    const metrics: Counters
    const max: int

    ghost predicate Valid()
      reads this`peers, peers.Values`send
    {
      && (forall a :: a in peers ==> peers[a].addr == a && |peers[a].send| <= peers[a].capacity)
    }

    constructor (metrics: Counters, max: int)
      ensures Valid() && peers == map[] && this.metrics == metrics && this.max == max
    {
      peers := map[];
      this.metrics, this.max := metrics, max;
    }

    /** Installs a peer and cancels the session it displaces; only a new address can be refused. */
    method Register(peer: Peer) returns (ok: bool)
      requires Valid() && |peer.send| <= peer.capacity
      modifies this`peers, metrics`activeSessions, metrics`accepted, peers.Values`cancelled
      ensures Valid()
      ensures ok <==> peer.addr in old(peers) || |old(peers)| < max
      ensures peers == if ok then old(peers)[peer.addr := peer] else old(peers)
      ensures ok == Install(old(peers), max, peer.addr, peer).Some?
      ensures forall p: Peer :: p in old(peers.Values) ==>
                p.cancelled == (old(p.cancelled) || (ok && Owner(old(peers), peer.addr) == Some(p)))
      ensures metrics.accepted == old(metrics.accepted) + (if ok then 1 else 0)
      ensures metrics.activeSessions ==
              old(metrics.activeSessions) + (if ok && Owner(old(peers), peer.addr).None? then 1 else 0)
    {
      // under the lock
      var displaced := Owner(peers, peer.addr);
      if displaced.None? && |peers| >= max {
        return false;
      }
      peers := peers[peer.addr := peer];
      // after the unlock
      if displaced.Some? {
        displaced.value.Cancel();
      } else {
        metrics.activeSessions := metrics.activeSessions + 1;
      }
      metrics.accepted := metrics.accepted + 1;
      ok := true;
    }

    method Unregister(peer: Peer)
      requires Valid()
      modifies this`peers, metrics`activeSessions
      ensures Valid() && peers == Evict(old(peers), peer.addr, peer)
      ensures peers == if peer.addr in old(peers) && old(peers)[peer.addr] == peer then old(peers) - {peer.addr} else old(peers)
      ensures metrics.activeSessions ==
              old(metrics.activeSessions) - (if Owner(old(peers), peer.addr) == Some(peer) then 1 else 0)
    {
      if peer.addr in peers && peers[peer.addr] == peer {
        peers := peers - {peer.addr};
        metrics.activeSessions := metrics.activeSessions - 1;
      }
    }

    /** Queues a fresh copy of the first n bytes of the buffer for the peer at addr. */
    method Dispatch(addr: Addr, buf: array<Byte>, n: nat) returns (ok: bool)
      requires Valid() && n <= buf.Length
      modifies metrics`dropped, peers.Values`send
      ensures Valid()
      ensures ok == (addr in peers && |old(peers[addr].send)| < peers[addr].capacity)
      ensures ok ==> var after := peers[addr].send; var k := |old(peers[addr].send)|;
                |after| == k + 1 && after[..k] == old(peers[addr].send)
                && fresh(after[k]) && after[k][..] == old(buf[..n])
      ensures ok ==> Contents(peers[addr].send) == old(Contents(peers[addr].send)) + [old(buf[..n])]
      ensures forall a :: a in peers && (a != addr || !ok) ==> peers[a].send == old(peers[a].send)
      ensures metrics.dropped == old(metrics.dropped) + (if ok then 0 else 1)
    {
      var peer := Owner(peers, addr);
      if peer.None? {
        metrics.dropped := metrics.dropped + 1;
        return false;
      }
      var copyOfPacket := new Byte[n];
      forall k | 0 <= k < n {
        copyOfPacket[k] := buf[k];
      }
      ok := peer.value.Offer(copyOfPacket);
      ghost var before := old(Contents(peers[addr].send));
      assert forall k :: 0 <= k < |before| ==> Contents(peer.value.send)[k] == before[k];
      if !ok {
        metrics.dropped := metrics.dropped + 1;
      }
    }

    /** Cancels every peer of a snapshot taken under the lock. */
    method CloseAll()
      requires Valid()
      modifies peers.Values`cancelled
      ensures forall p: Peer :: p in peers.Values ==> p.cancelled
    {
      var snapshot := peers.Values;
      while snapshot != {}
        invariant snapshot <= peers.Values
        invariant forall p: Peer :: p in peers.Values && p !in snapshot ==> p.cancelled
        decreases |snapshot|
      {
        var p: Peer :| p in snapshot;
        p.Cancel();
        snapshot := snapshot - {p};
      }
    }
  }

  /** One device read: it fails, or leaves these contents in the whole buffer and reports n. */
  datatype TunRead = Failed | Filled(n: int, buffer: seq<Byte>)

  /** The packet of a read that the loop dispatches. */
  function Dispatched(read: TunRead): (r: Option<Packet>)
    ensures r.Some? ==> WellFormed(r.value)
  {
    if read.Failed? || read.n <= 0 || read.n > |read.buffer| then None
    else if !WellFormed(read.buffer[..read.n]) then None
    else Some(read.buffer[..read.n])
  }

  /** The packets of a script of reads for an address, in order, up to the first failure. */
  function PacketsFor(script: seq<TunRead>, a: Addr): seq<Packet> {
    if script == [] || script[0].Failed? then []
    else
      match Dispatched(script[0])
      case Some(p) => if Destination(p) == a then [p] + PacketsFor(script[1..], a) else PacketsFor(script[1..], a)
      case None => PacketsFor(script[1..], a)
  }

  /** How many reads succeed before the first failure. */
  function Successes(script: seq<TunRead>): (n: nat)
    ensures n <= |script| && (forall j :: 0 <= j < n ==> script[j].Filled?) && (n < |script| ==> script[n].Failed?)
  {
    if script == [] || script[0].Failed? then 0 else 1 + Successes(script[1..])
  }

  /** A successful read of a packet: a plausible count, and a datagram of section 3.1 of RFC 791
      in exactly that many bytes. */
  ghost predicate IsPacket(read: TunRead, p: Packet) {
    && read.Filled? && 0 < read.n <= |read.buffer| && p == read.buffer[..read.n]
    && exists d: Datagram :: d.Valid() && d.Serialize() == p
  }

  ghost predicate HasPacket(read: TunRead) { exists p: Packet :: IsPacket(read, p) }

  /** Exactly the reads of packets are dispatched. */
  lemma DispatchesExactlyPackets(read: TunRead, p: Packet)
    ensures Dispatched(read) == Some(p) <==> IsPacket(read, p)
  {
    if read.Filled? && 0 < read.n <= |read.buffer| {
      AcceptsExactlyDatagrams(read.buffer[..read.n]);
    }
  }

  /** Some packets, read at these positions, in order. */
  ghost predicate ReadAt(packets: seq<Packet>, script: seq<TunRead>, idx: seq<nat>) {
    && |idx| == |packets| && Increasing(idx)
    && forall k: nat :: k < |idx| ==> idx[k] < |script| && IsPacket(script[idx[k]], packets[k])
  }

  /** The positions of the rest, seen from the whole script. */
  function Later(idx: seq<nat>): (r: seq<nat>)
    ensures |r| == |idx| && forall k: nat :: k < |idx| ==> r[k] == idx[k] + 1
  {
    seq(|idx|, (k: nat) requires k < |idx| => idx[k] + 1)
  }

  function Shifted(idx: seq<nat>, first: bool): seq<nat> { if first then [0] + Later(idx) else Later(idx) }

  lemma ReadLater(packets: seq<Packet>, script: seq<TunRead>, idx: seq<nat>)
    requires script != [] && ReadAt(packets, script[1..], idx)
    ensures ReadAt(packets, script, Later(idx))
  {
    var later := Later(idx);
    forall k: nat | k < |idx|
      ensures later[k] < |script| && IsPacket(script[later[k]], packets[k])
    {
      assert script[later[k]] == script[1..][idx[k]];
    }
  }

  lemma ReadFirst(packets: seq<Packet>, script: seq<TunRead>, idx: seq<nat>, p: Packet)
    requires script != [] && ReadAt(packets, script[1..], idx) && IsPacket(script[0], p)
    ensures ReadAt([p] + packets, script, [0] + Later(idx))
  {
    ReadLater(packets, script, idx);
    var all := [0] + Later(idx);
    forall k: nat | k < |all|
      ensures all[k] < |script| && IsPacket(script[all[k]], ([p] + packets)[k])
    {
      if k > 0 {
        assert all[k] == Later(idx)[k - 1];
      }
    }
  }

  /** The packets for an address are, in order, all the packets read for it before the first
      failure. */
  lemma {:induction false} PacketsForAreAll(script: seq<TunRead>, a: Addr) returns (idx: seq<nat>)
    ensures ReadAt(PacketsFor(script, a), script, idx)
    ensures forall j: nat, p: Packet :: j < Successes(script) && IsPacket(script[j], p) ==> (j in idx <==> Destination(p) == a)
  {
    idx := [];
    if script != [] && script[0].Filled? {
      var rest := PacketsForAreAll(script[1..], a);
      var first := Dispatched(script[0]);
      var here := first.Some? && Destination(first.value) == a;
      idx := Shifted(rest, here);
      ReadLater(PacketsFor(script[1..], a), script, rest);
      if here {
        DispatchesExactlyPackets(script[0], first.value);
        ReadFirst(PacketsFor(script[1..], a), script, rest, first.value);
      }
      forall j: nat, p: Packet | j < Successes(script) && IsPacket(script[j], p)
        ensures j in idx <==> Destination(p) == a
      {
        DispatchesExactlyPackets(script[j], p);
        ShiftedHas(rest, here, j);
      }
    }
  }

  lemma ShiftedHas(idx: seq<nat>, first: bool, j: nat)
    ensures j in Shifted(idx, first) <==> if j == 0 then first else (j - 1) in idx
  {
    if j > 0 && (j - 1) in idx {
      var k: nat :| k < |idx| && idx[k] == j - 1;
      assert Later(idx)[k] == j;
    }
  }

  /** One peer's queue, as packets. */
  datatype Line = Line(queue: seq<Packet>, capacity: nat)

  /** The queues of the registered addresses and the packet loop's counters. */
  datatype Flow = Flow(lines: map<Addr, Line>, invalid: int, packets: int, bytes: int, dropped: int)

  predicate HasRoom(lines: map<Addr, Line>, a: Addr) { a in lines && |lines[a].queue| < lines[a].capacity }

  /** A packet is queued at its address if there is room, and dropped otherwise. */
  function Routed(f: Flow, a: Addr, p: Packet): Flow {
    if HasRoom(f.lines, a) then f.(lines := f.lines[a := f.lines[a].(queue := f.lines[a].queue + [p])])
    else f.(dropped := f.dropped + 1)
  }

  /** Each read counts once: as invalid, or as a packet with its bytes. */
  function AfterRead(f: Flow, read: TunRead): Flow {
    if read.Failed? then f
    else
      match Dispatched(read)
      case Some(p) => Routed(f.(packets := f.packets + 1, bytes := f.bytes + |p|), Destination(p), p)
      case None => f.(invalid := f.invalid + 1)
  }

  function AfterReads(f: Flow, script: seq<TunRead>): Flow
    decreases |script|
  {
    if script == [] || script[0].Failed? then f else AfterReads(AfterRead(f, script[0]), script[1..])
  }

  /** Each registered queue keeps what it had and gains the packets addressed to it, in order, as
      many as fit; no address comes or goes. */
  lemma {:induction false} QueueGainsItsPackets(f: Flow, script: seq<TunRead>, a: Addr)
    requires a in f.lines && |f.lines[a].queue| <= f.lines[a].capacity
    ensures var packets := PacketsFor(script, a); var line := f.lines[a]; var g := AfterReads(f, script);
            && g.lines.Keys == f.lines.Keys
            && g.lines[a] == line.(queue := line.queue + packets[..Min(|packets|, line.capacity - |line.queue|)])
    decreases |script|
  {
    if script != [] && script[0].Filled? {
      QueueGainsItsPackets(AfterRead(f, script[0]), script[1..], a);
    }
  }

  /** How many reads were queued. */
  function Queued(f: Flow, script: seq<TunRead>): nat
    decreases |script|
  {
    if script == [] || script[0].Failed? then 0
    else (if AfterRead(f, script[0]).lines != f.lines then 1 else 0) + Queued(AfterRead(f, script[0]), script[1..])
  }

  /** The bytes of the packets among the first n reads. */
  ghost function PacketBytes(script: seq<TunRead>, n: nat): int
    requires n <= |script|
  {
    if n == 0 then 0
    else
      PacketBytes(script, n - 1) + (if HasPacket(script[n - 1]) then script[n - 1].n else 0)
  }

  lemma {:induction false} PacketBytesFront(script: seq<TunRead>, n: nat)
    requires 0 < n <= |script|
    ensures PacketBytes(script, n) ==
            PacketBytes(script[1..], n - 1) + (if Dispatched(script[0]).Some? then script[0].n else 0)
  {
    if n == 1 {
      BytesOfOne(script[0]);
    } else {
      PacketBytesFront(script, n - 1);
      assert script[1..][n - 2] == script[n - 1];
    }
  }

  lemma BytesOfOne(read: TunRead)
    ensures Dispatched(read).Some? <==> HasPacket(read)
  {
    if Dispatched(read).Some? {
      DispatchesExactlyPackets(read, Dispatched(read).value);
    }
    if p: Packet :| IsPacket(read, p) {
      DispatchesExactlyPackets(read, p);
    }
  }

  /** Each successful read is counted exactly once, as invalid, dropped or queued; and the bytes
      counted are those of the packets read. */
  lemma {:induction false} ReadsAreCounted(f: Flow, script: seq<TunRead>)
    ensures var g := AfterReads(f, script);
            && (g.invalid - f.invalid) + (g.dropped - f.dropped) + Queued(f, script) == Successes(script)
            && g.packets - f.packets == (g.dropped - f.dropped) + Queued(f, script)
            && g.bytes - f.bytes == PacketBytes(script, Successes(script))
    decreases |script|
  {
    if script != [] && script[0].Filled? {
      ReadsAreCounted(AfterRead(f, script[0]), script[1..]);
      PacketBytesFront(script, Successes(script));
      OneReadCounts(f, script[0]);
    }
  }

  lemma OneReadCounts(f: Flow, read: TunRead)
    requires read.Filled?
    ensures var g := AfterRead(f, read);
            && (g.invalid - f.invalid) + (g.dropped - f.dropped) + (if g.lines != f.lines then 1 else 0) == 1
            && g.packets - f.packets == (g.dropped - f.dropped) + (if g.lines != f.lines then 1 else 0)
            && g.bytes - f.bytes == if Dispatched(read).Some? then read.n else 0
  {
    match Dispatched(read)
    case Some(p) => RoutedOrDropped(f.(packets := f.packets + 1, bytes := f.bytes + |p|), Destination(p), p);
    case None =>
  }

  lemma RoutedOrDropped(f: Flow, a: Addr, p: Packet)
    ensures Routed(f, a, p).dropped == f.dropped + (if Routed(f, a, p).lines == f.lines then 1 else 0)
  {
    if HasRoom(f.lines, a) {
      assert |Routed(f, a, p).lines[a].queue| == |f.lines[a].queue| + 1;
    }
  }

  ghost function LineOf(peer: Peer): Line
    reads peer`send, peer.send
  {
    Line(Contents(peer.send), peer.capacity)
  }

  ghost function LinesOf(hub: Hub): map<Addr, Line>
    reads hub`peers, hub.peers.Values`send
    reads set a: Addr, k: nat | a in hub.peers && k < |hub.peers[a].send| :: hub.peers[a].send[k]
  {
    map a | a in hub.peers :: LineOf(hub.peers[a])
  }

  ghost function FlowOf(hub: Hub): Flow
    reads hub`peers, hub.peers.Values`send, hub.metrics
    reads set a: Addr, k: nat | a in hub.peers && k < |hub.peers[a].send| :: hub.peers[a].send[k]
  {
    var m := hub.metrics;
    Flow(LinesOf(hub), m.invalid, m.packetsFromTun, m.bytesFromTun, m.dropped)
  }

  /** The TUN device as a script of reads. */
  class Device {
    var script: seq<TunRead>

    constructor (script: seq<TunRead>)
      ensures this.script == script
    {
      this.script := script;
    }

    /** Overwrites the caller's buffer. */
    method ReadPacket(buf: array<Byte>) returns (read: TunRead)
      requires forall k :: 0 <= k < |script| && script[k].Filled? ==> |script[k].buffer| == buf.Length
      modifies this`script, buf
      ensures old(script) == [] ==> read == Failed && script == []
      ensures old(script) != [] ==> read == old(script)[0] && script == old(script)[1..]
      ensures read.Filled? ==> buf[..] == read.buffer
    {
      if script == [] {
        return Failed;
      }
      read := script[0];
      script := script[1..];
      if read.Filled? {
        forall k | 0 <= k < buf.Length {
          buf[k] := read.buffer[k];
        }
      }
    }
  }

  /** The buffer is of the size every read fills. */
  ghost predicate Fits(script: seq<TunRead>, size: nat) {
    forall k :: 0 <= k < |script| && script[k].Filled? ==> |script[k].buffer| == size
  }

  /** No queued array is the read buffer. */
  ghost predicate Separate(hub: Hub, buf: array<Byte>)
    reads hub, hub.peers.Values
  {
    forall a :: a in hub.peers ==> buf !in hub.peers[a].send
  }

  /** Reading into the buffer leaves every queued packet as it was. */
  method ReadInto(hub: Hub, dev: Device, buf: array<Byte>) returns (read: TunRead)
    requires hub.Valid() && Separate(hub, buf) && Fits(dev.script, buf.Length)
    modifies dev, buf
    ensures old(dev.script) == [] ==> read == Failed && dev.script == []
    ensures old(dev.script) != [] ==> read == old(dev.script)[0] && dev.script == old(dev.script)[1..]
    ensures read.Filled? ==> buf[..] == read.buffer
    ensures FlowOf(hub) == old(FlowOf(hub))
  {
    read := dev.ReadPacket(buf);
    forall a | a in hub.peers
      ensures Contents(hub.peers[a].send) == old(Contents(hub.peers[a].send))
    {
      var queue := hub.peers[a].send;
      assert forall k :: 0 <= k < |queue| ==> queue[k][..] == old(queue[k][..]);
    }
  }

  /** Dispatching queues the packet at its own address, if there is room, and nowhere else. */
  method DispatchRead(hub: Hub, buf: array<Byte>, n: nat, dst: Addr)
    requires hub.Valid() && Separate(hub, buf) && n <= buf.Length
    modifies hub.metrics`dropped, hub.peers.Values`send
    ensures hub.Valid() && Separate(hub, buf)
    ensures FlowOf(hub) == Routed(old(FlowOf(hub)), dst, buf[..n])
  {
    ghost var before := LinesOf(hub);
    var ok := hub.Dispatch(dst, buf, n);
    forall a | a in hub.peers && (a != dst || !ok)
      ensures LineOf(hub.peers[a]) == before[a]
    {
      assert hub.peers[a].send == old(hub.peers[a].send);
    }
    Lifts(before, LinesOf(hub), dst, buf[..n], ok);
  }

  /** Queues that differ at most at one address, by one packet at its end. */
  lemma Lifts(before: map<Addr, Line>, after: map<Addr, Line>, dst: Addr, p: Packet, ok: bool)
    requires after.Keys == before.Keys && ok == HasRoom(before, dst)
    requires forall a :: a in before && (a != dst || !ok) ==> after[a] == before[a]
    requires ok ==> after[dst] == before[dst].(queue := before[dst].queue + [p])
    ensures after == if ok then before[dst := before[dst].(queue := before[dst].queue + [p])] else before
  {}

  /** Counting leaves the queues alone. */
  method Count(hub: Hub, n: int)
    modifies hub.metrics`packetsFromTun, hub.metrics`bytesFromTun
    ensures var f := old(FlowOf(hub)); FlowOf(hub) == f.(packets := f.packets + 1, bytes := f.bytes + n)
  {
    ghost var lines := LinesOf(hub);
    hub.metrics.packetsFromTun := hub.metrics.packetsFromTun + 1;
    hub.metrics.bytesFromTun := hub.metrics.bytesFromTun + n;
    assert LinesOf(hub) == lines;
  }

  method CountInvalid(hub: Hub)
    modifies hub.metrics`invalid
    ensures var f := old(FlowOf(hub)); FlowOf(hub) == f.(invalid := f.invalid + 1)
  {
    ghost var lines := LinesOf(hub);
    hub.metrics.invalid := hub.metrics.invalid + 1;
    assert LinesOf(hub) == lines;
  }

  /** What the loop does with a checked read: counts it, and dispatches it if it is a packet. */
  function Handled(f: Flow, dst: Option<Addr>, p: Packet): Flow {
    match dst
    case None => f.(invalid := f.invalid + 1)
    case Some(d) => Routed(f.(packets := f.packets + 1, bytes := f.bytes + |p|), d, p)
  }

  /** The checks of server.go:133-141: the destination of a packet to dispatch. */
  method Classify(buf: array<Byte>, read: TunRead, ghost f: Flow) returns (n: nat, dst: Option<Addr>)
    requires read.Filled? && buf[..] == read.buffer
    ensures n <= buf.Length && AfterRead(f, read) == Handled(f, dst, buf[..n])
  {
    if read.n <= 0 || read.n > buf.Length {
      return 0, None;
    }
    n := read.n;
    var addresses := SourceDestination(buf[..n]);
    dst := if addresses.Failure? then None else Some(addresses.value.1);
  }

  /** Counting and dispatching what was read (server.go:133-144). */
  method Consume(hub: Hub, buf: array<Byte>, n: nat, dst: Option<Addr>)
    requires hub.Valid() && Separate(hub, buf) && n <= buf.Length
    modifies hub.metrics`invalid, hub.metrics`packetsFromTun, hub.metrics`bytesFromTun, hub.metrics`dropped
    modifies hub.peers.Values`send
    ensures hub.Valid() && Separate(hub, buf)
    ensures FlowOf(hub) == Handled(old(FlowOf(hub)), dst, buf[..n])
  {
    if dst.None? {
      CountInvalid(hub);
    } else {
      Count(hub, n);
      DispatchRead(hub, buf, n, dst.value);
    }
  }

  /** One packetLoop iteration (server.go:126-144). */
  method PacketLoopOnce(hub: Hub, dev: Device, buf: array<Byte>) returns (read: TunRead)
    requires hub.Valid() && Separate(hub, buf) && Fits(dev.script, buf.Length)
    modifies hub.metrics`invalid, hub.metrics`packetsFromTun, hub.metrics`bytesFromTun, hub.metrics`dropped
    modifies dev, buf, hub.peers.Values`send
    ensures hub.Valid() && Separate(hub, buf)
    ensures old(dev.script) == [] ==> read == Failed && dev.script == []
    ensures old(dev.script) != [] ==> read == old(dev.script)[0] && dev.script == old(dev.script)[1..]
    ensures FlowOf(hub) == AfterRead(old(FlowOf(hub)), read)
  {
    ghost var f := FlowOf(hub);
    read := ReadInto(hub, dev, buf);
    if read.Filled? {
      var n, dst := Classify(buf, read, f);
      assert FlowOf(hub) == f;
      Consume(hub, buf, n, dst);
    }
  }

  /** The packet loop, until the device fails, with one buffer reused for every read: queues and
      counters end up as the reads make them, byte for byte. */
  method PacketLoop(hub: Hub, dev: Device)
    requires hub.Valid() && Fits(dev.script, MAX_PACKET_SIZE)
    modifies hub.metrics`invalid, hub.metrics`packetsFromTun, hub.metrics`bytesFromTun, hub.metrics`dropped
    modifies dev, hub.peers.Values`send
    ensures hub.Valid()
    ensures FlowOf(hub) == AfterReads(old(FlowOf(hub)), old(dev.script))
  {
    var buf := new Byte[MAX_PACKET_SIZE];
    while true
      invariant hub.Valid() && Separate(hub, buf) && Fits(dev.script, buf.Length)
      invariant AfterReads(FlowOf(hub), dev.script) == AfterReads(old(FlowOf(hub)), old(dev.script))
      decreases |dev.script|
    {
      var read := PacketLoopOnce(hub, dev, buf);
      if read.Failed? {
        return;
      }
    }
  }

  /** A connection: what was written, and whether each further write will succeed. */
  class Conn {
    var sent: seq<seq<Byte>>
    var outcomes: seq<bool>

    constructor (outcomes: seq<bool>)
      ensures sent == [] && this.outcomes == outcomes
    {
      sent, this.outcomes := [], outcomes;
    }

    method Write(frame: array<Byte>) returns (ok: bool)
      modifies this
      ensures ok == (old(outcomes) != [] && old(outcomes)[0])
      ensures sent == if ok then old(sent) + [frame[..]] else old(sent)
      ensures old(outcomes) != [] ==> outcomes == old(outcomes)[1..]
      ensures old(outcomes) == [] ==> outcomes == []
    {
      ok := outcomes != [] && outcomes[0];
      if outcomes != [] {
        outcomes := outcomes[1..];
      }
      if ok {
        sent := sent + [frame[..]];
      }
    }
  }

  /** Some packet frames, in order. */
  ghost predicate Frames(frames: seq<seq<Byte>>, packets: seq<Packet>) {
    |frames| == |packets| && forall k :: 0 <= k < |frames| ==> Encoded(TYPE_PACKET, 0, packets[k]) == Success(frames[k])
  }

  /** The write loop on a queue nobody else fills (server.go:252-266): it frames and writes the
      packets in order until the queue is empty or the first failure, which loses exactly the
      packet in hand. */
  method WriteLoop(peer: Peer, conn: Conn) returns (done: nat, failed: bool)
    modifies peer`send, conn
    ensures var queue := old(Contents(peer.send));
            && done <= |queue|
            && |conn.sent| == |old(conn.sent)| + done && old(conn.sent) <= conn.sent
            && Frames(conn.sent[|old(conn.sent)|..], queue[..done])
            && (!failed ==> done == |queue| && peer.send == [])
            && (failed ==> done < |queue| && Contents(peer.send) == queue[done + 1..]
                           && (Encoded(TYPE_PACKET, 0, queue[done]).Failure?
                               || done >= |old(conn.outcomes)| || !old(conn.outcomes)[done]))
    ensures done <= |old(conn.outcomes)| && forall k :: 0 <= k < done ==> old(conn.outcomes)[k]
  {
    ghost var outcomes := conn.outcomes;
    ghost var queue := Contents(peer.send);
    ghost var before := conn.sent;
    done, failed := 0, false;
    while |peer.send| > 0
      invariant done + |peer.send| == |queue| && Contents(peer.send) == queue[done..]
      invariant |conn.sent| == |before| + done && before <= conn.sent
      invariant Frames(conn.sent[|before|..], queue[..done])
      invariant done <= |outcomes| && conn.outcomes == outcomes[done..]
      invariant forall k :: 0 <= k < done ==> outcomes[k]
      decreases |peer.send|
    {
      var packet := peer.send[0];
      assert packet[..] == Contents(peer.send)[0] == queue[done];
      peer.send := peer.send[1..];
      assert Contents(peer.send) == queue[done + 1..];
      var frame := Encode(TYPE_PACKET, 0, packet);
      if frame.Failure? {
        return done, true;
      }
      var ok := conn.Write(frame.value);
      if !ok {
        return done, true;
      }
      FramesGrow(conn.sent[|before|..|before| + done], queue[..done], frame.value[..], queue[done]);
      assert conn.sent[|before|..] == conn.sent[|before|..|before| + done] + [frame.value[..]];
      assert queue[..done + 1] == queue[..done] + [queue[done]];
      done := done + 1;
    }
  }

  lemma FramesGrow(frames: seq<seq<Byte>>, packets: seq<Packet>, frame: seq<Byte>, packet: Packet)
    requires Frames(frames, packets) && Encoded(TYPE_PACKET, 0, packet) == Success(frame)
    ensures Frames(frames + [frame], packets + [packet])
  {}
}
