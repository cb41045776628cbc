/** The client's reader on the heap (internal/client/client.go:201-222): one buffer reused for
    every device read, and a fresh copy for every packet put on the queue. */
module ClientIo {
  import opened Prelude
  import opened Frame
  import opened Ipv4
  import opened ClientMachine
  import opened ClientTraffic
  import opened Hub

  /** The queue between the reader and the writers, with all that was ever put on it. */
  class Outbound {
    var queue: seq<array<Byte>>
    const capacity: nat
    ghost var put: seq<Packet>
    ghost var taken: nat

    ghost predicate Valid()
      reads this, queue
    {
      |queue| <= capacity && taken <= |put| && Contents(queue) == put[taken..]
    }

    constructor (capacity: nat)
      ensures Valid() && queue == [] && put == [] && this.capacity == capacity
    {
      queue, this.capacity := [], capacity;
      put, taken := [], 0;
    }

    /** The writers take this many packets from the front, or all there are. */
    method Take(n: nat)
      requires Valid()
      modifies this`queue, this`taken
      ensures Valid() && put == old(put) && exists k :: 0 <= k <= |old(queue)| && queue == old(queue)[k..]
      ensures taken == old(taken) + Min(n, |old(queue)|)
    {
      var k := Min(n, |queue|);
      ghost var before := Contents(queue);
      queue, taken := queue[k..], taken + k;
      assert Contents(queue) == before[k..];
    }
  }

  /** The packets of a script of device reads that the reader puts, in order, up to the first
      failure. */
  function Puts(c: Conf, script: seq<TunRead>): seq<Packet> {
    if script == [] || script[0].Failed? then []
    else
      match PutFrom(c, script[0])
      case Some(p) => [p] + Puts(c, script[1..])
      case None => Puts(c, script[1..])
  }

  function PutFrom(c: Conf, read: TunRead): Option<Packet> {
    if read.Failed? || read.n < 0 then None else Readable(c, read.n, read.buffer)
  }

  /** A read the client forwards: a datagram of section 3.1 of RFC 791 from its own address in
      exactly the bytes read, no longer than its MTU. */
  ghost predicate Forwards(c: Conf, read: TunRead, p: Packet) {
    && read.Filled? && 0 <= read.n <= |read.buffer| && p == read.buffer[..read.n] && read.n <= c.mtu
    && exists d: Datagram :: d.Valid() && d.Serialize() == p && d.src == c.address
  }

  /** Exactly those reads are put. */
  lemma PutsExactlyWhatItForwards(c: Conf, read: TunRead, p: Packet)
    ensures PutFrom(c, read) == Some(p) <==> Forwards(c, read, p)
  {
    if read.Filled? && 0 <= read.n <= |read.buffer| {
      ReadableIsConforming(c, read.n, read.buffer);
      AcceptsExactlyDatagramsFrom(read.buffer[..read.n], c.address);
    }
  }

  ghost predicate ForwardedAt(c: Conf, packets: seq<Packet>, script: seq<TunRead>, idx: seq<nat>) {
    && |idx| == |packets| && Increasing(idx)
    && forall k: nat :: k < |idx| ==> idx[k] < |script| && Forwards(c, script[idx[k]], packets[k])
  }

  lemma ForwardedLater(c: Conf, packets: seq<Packet>, script: seq<TunRead>, idx: seq<nat>)
    requires script != [] && ForwardedAt(c, packets, script[1..], idx)
    ensures ForwardedAt(c, packets, script, Later(idx))
  {
    var later := Later(idx);
    forall k: nat | k < |idx|
      ensures later[k] < |script| && Forwards(c, script[later[k]], packets[k])
    {
      assert script[later[k]] == script[1..][idx[k]];
    }
  }

  lemma ForwardedFirst(c: Conf, packets: seq<Packet>, script: seq<TunRead>, idx: seq<nat>, p: Packet)
    requires script != [] && ForwardedAt(c, packets, script[1..], idx) && Forwards(c, script[0], p)
    ensures ForwardedAt(c, [p] + packets, script, [0] + Later(idx))
  {
    ForwardedLater(c, packets, script, idx);
    var all := [0] + Later(idx);
    forall k: nat | k < |all|
      ensures all[k] < |script| && Forwards(c, script[all[k]], ([p] + packets)[k])
    {
      if k > 0 {
        assert all[k] == Later(idx)[k - 1];
      }
    }
  }

  /** What the reader puts is, in order and unchanged, all it reads that it forwards, up to the
      first failure. */
  lemma {:induction false} PutsAreAll(c: Conf, script: seq<TunRead>) returns (idx: seq<nat>)
    ensures ForwardedAt(c, Puts(c, script), script, idx)
    ensures forall j: nat, p: Packet :: j < Successes(script) && Forwards(c, script[j], p) ==> j in idx
  {
    idx := [];
    if script != [] && script[0].Filled? {
      var rest := PutsAreAll(c, script[1..]);
      var first := PutFrom(c, script[0]);
      idx := Shifted(rest, first.Some?);
      ForwardedLater(c, Puts(c, script[1..]), script, rest);
      if first.Some? {
        PutsExactlyWhatItForwards(c, script[0], first.value);
        ForwardedFirst(c, Puts(c, script[1..]), script, rest, first.value);
      }
      forall j: nat, p: Packet | j < Successes(script) && Forwards(c, script[j], p)
        ensures j in idx
      {
        PutsExactlyWhatItForwards(c, script[j], p);
        ShiftedHas(rest, first.Some?, j);
      }
    }
  }

  /** Puts a fresh copy of the buffer's first n bytes on the queue. */
  method PutCopy(outbound: Outbound, buf: array<Byte>, n: nat)
    requires outbound.Valid() && n <= buf.Length && |outbound.queue| < outbound.capacity && buf !in outbound.queue
    modifies outbound`queue, outbound`put
    ensures outbound.Valid() && buf !in outbound.queue
    ensures |outbound.queue| == |old(outbound.queue)| + 1 && old(outbound.queue) <= outbound.queue
    ensures fresh(outbound.queue[|old(outbound.queue)|])
    ensures outbound.put == old(outbound.put) + [buf[..n]]
  {
    var packet := new Byte[n];
    forall k | 0 <= k < n {
      packet[k] := buf[k];
    }
    ghost var before := Contents(outbound.queue);
    outbound.queue := outbound.queue + [packet];
    assert packet[..] == buf[..n];
    assert forall k :: 0 <= k < |before| ==> Contents(outbound.queue)[k] == before[k];
    outbound.put := outbound.put + [packet[..]];
  }

  /** The next device read, into the reader's own buffer: the queued packets stay as they are. */
  method ReadNext(dev: Device, outbound: Outbound, buf: array<Byte>) returns (read: TunRead)
    requires outbound.Valid() && buf !in outbound.queue && Fits(dev.script, buf.Length)
    modifies dev, buf
    ensures old(dev.script) == [] ==> read == Failed && dev.script == []
    ensures old(dev.script) != [] ==> read == old(dev.script)[0] && dev.script == old(dev.script)[1..]
    ensures read.Filled? ==> buf[..] == read.buffer
    ensures outbound.Valid()
  {
    read := dev.ReadPacket(buf);
    assert forall k :: 0 <= k < |outbound.queue| ==> outbound.queue[k][..] == old(outbound.queue[k][..]);
    assert Contents(outbound.queue) == old(Contents(outbound.queue));
  }

  /** The checks of readTun (client.go:208-214). */
  method Conforms(c: Conf, buf: array<Byte>, n: nat) returns (ok: bool)
    requires c.mtu <= buf.Length
    ensures if ok then n <= buf.Length && Readable(c, n, buf[..]) == Some(buf[..n]) else Readable(c, n, buf[..]) == None
  {
    if n > c.mtu {
      return false;
    }
    assert buf[..][..n] == buf[..n];
    var addresses := SourceDestination(buf[..n]);
    ok := addresses.Success? && addresses.value.0 == c.address;
  }

  /** The select of client.go:216-220, behind whatever the writers take meanwhile: the packet is
      put, or the context ends at a full queue. */
  method PutOrGiveUp(outbound: Outbound, buf: array<Byte>, n: nat, takes: nat) returns (ok: bool)
    requires outbound.Valid() && n <= buf.Length && buf !in outbound.queue
    modifies outbound
    ensures outbound.Valid() && buf !in outbound.queue
    ensures forall b :: b in outbound.queue ==> b in old(outbound.queue) || fresh(b)
    ensures if ok then outbound.put == old(outbound.put) + [buf[..n]]
            else outbound.put == old(outbound.put) && |outbound.queue| == outbound.capacity
  {
    outbound.Take(takes);
    ok := |outbound.queue| < outbound.capacity;
    if ok {
      PutCopy(outbound, buf, n);
    }
  }

  /** What ReadPacket promises of every read: it fills the buffer and reports no negative count. */
  ghost predicate Proper(script: seq<TunRead>) {
    Fits(script, MAX_PACKET_SIZE) && forall k :: 0 <= k < |script| && script[k].Filled? ==> script[k].n >= 0
  }

  /** One turn up to the copy: the device fails, or the read is skipped or readable. */
  method ReadOne(c: Conf, dev: Device, outbound: Outbound, buf: array<Byte>) returns (failed: bool, n: Option<nat>)
    requires c.mtu <= MAX_PACKET_SIZE == buf.Length && Proper(dev.script)
    requires outbound.Valid() && buf !in outbound.queue
    modifies dev, buf
    ensures outbound.Valid() && Proper(dev.script)
    ensures failed ==> Puts(c, old(dev.script)) == []
    ensures !failed ==> |dev.script| < |old(dev.script)|
    ensures !failed && n.None? ==> Puts(c, old(dev.script)) == Puts(c, dev.script)
    ensures !failed && n.Some? ==> n.value <= buf.Length
    ensures !failed && n.Some? ==> Puts(c, old(dev.script)) == [buf[..n.value]] + Puts(c, dev.script)
  {
    var read := ReadNext(dev, outbound, buf);
    if read.Failed? {
      return true, None;
    }
    var ok := Conforms(c, buf, read.n);
    failed, n := false, if ok then Some(read.n) else None;
  }

  /** readTun, while the writers take any number of packets before each put; it returns when the
      device fails, or at a full queue when its context ends. What was ever put grows by a first
      part of the conforming packets read, in order and byte for byte, by all of them unless the
      queue was full; and the queue holds exactly what was put and not yet taken. */
  method ReadTun(c: Conf, dev: Device, outbound: Outbound, takes: seq<nat>) returns (ghost m: nat)
    requires c.mtu <= MAX_PACKET_SIZE && Proper(dev.script) && outbound.Valid()
    modifies dev, outbound
    ensures outbound.Valid()
    ensures m <= |Puts(c, old(dev.script))| && outbound.put == old(outbound.put) + Puts(c, old(dev.script))[..m]
    ensures m < |Puts(c, old(dev.script))| ==> |outbound.queue| == outbound.capacity
  {
    m := 0;
    ghost var puts := Puts(c, dev.script);
    var buf := new Byte[MAX_PACKET_SIZE];
    var rest := takes;
    while true
      invariant outbound.Valid() && buf !in outbound.queue && Proper(dev.script)
      invariant m <= |puts| && outbound.put == old(outbound.put) + puts[..m] && Puts(c, dev.script) == puts[m..]
      decreases |dev.script|
    {
      var failed, n := ReadOne(c, dev, outbound, buf);
      if failed {
        return;
      }
      if n.None? {
        continue;
      }
      var ok := PutOrGiveUp(outbound, buf, n.value, if rest == [] then 0 else rest[0]);
      if !ok {
        return;
      }
      assert puts[..m + 1] == puts[..m] + [puts[m]];
      m, rest := m + 1, if rest == [] then [] else rest[1..];
    }
  }
}
