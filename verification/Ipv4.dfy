/** IPv4 header validation (internal/protocol/control.go), set against the datagram
    layout of section 3.1 of RFC 791. */
module Ipv4 {
  import opened Prelude

  datatype Error = TooShort | NotIPv4 | BadHeaderLength | BadTotalLength

  /** The address held by four bytes, most significant first. */
  function AddrFrom4(a: Byte, b: Byte, c: Byte, d: Byte): Addr {
    ((a * 256 + b) * 256 + c) * 256 + d
  }

  function As4(a: Addr): (bytes: seq<Byte>)
    ensures |bytes| == 4 && AddrFrom4(bytes[0], bytes[1], bytes[2], bytes[3]) == a
  {
    [a / 256 / 256 / 256, a / 256 / 256 % 256, a / 256 % 256, a % 256]
  }

  lemma As4InvertsAddrFrom4(a: Byte, b: Byte, c: Byte, d: Byte)
    ensures As4(AddrFrom4(a, b, c, d)) == [a, b, c, d]
  {
    assert AddrFrom4(a, b, c, d) / 256 == (a * 256 + b) * 256 + c;
    assert ((a * 256 + b) * 256 + c) / 256 == a * 256 + b;
  }

  /** The addresses (source, destination) of a packet, with the source's order of checks. */
  function SourceDestination(packet: Packet): Result<(Addr, Addr), Error> {
    if |packet| < 20 then Failure(TooShort)
    else if packet[0] / 16 != 4 then Failure(NotIPv4)
    else
      var ihl := packet[0] % 16 * 4;
      if ihl < 20 || ihl > |packet| then Failure(BadHeaderLength)
      else
        var total := Word(packet[2], packet[3]);
        if total < ihl || total != |packet| then Failure(BadTotalLength)
        else Success((AddrFrom4(packet[12], packet[13], packet[14], packet[15]),
                      AddrFrom4(packet[16], packet[17], packet[18], packet[19])))
  }

  predicate WellFormed(packet: Packet) { SourceDestination(packet).Success? }

  function Source(packet: Packet): Addr
    requires WellFormed(packet)
  {
    SourceDestination(packet).value.0
  }

  function Destination(packet: Packet): Addr
    requires WellFormed(packet)
  {
    SourceDestination(packet).value.1
  }

  /** An IPv4 datagram by its fields: options in 32-bit words, data behind them. */
  datatype Datagram = Datagram(
    tos: Byte, identification: Word16, fragment: Word16, ttl: Byte, protocol: Byte, checksum: Word16,
    src: Addr, dst: Addr, options: seq<Byte>, data: seq<Byte>)
  {
    predicate Valid() {
      |options| % 4 == 0 && |options| <= 40 && TotalLength() <= 65535
    }

    function TotalLength(): nat { 20 + |options| + |data| }

    /** The first three header words. */
    function Fields(): seq<Byte>
      requires Valid()
    {
      [4 * 16 + 5 + |options| / 4, tos, Hi(TotalLength()), Lo(TotalLength()),
       Hi(identification), Lo(identification), Hi(fragment), Lo(fragment),
       ttl, protocol, Hi(checksum), Lo(checksum)]
    }

    /** The datagram on the wire, field by field. */
    function Serialize(): seq<Byte>
      requires Valid()
    {
      Fields() + As4(src) + As4(dst) + options + data
    }
  }

  /** Every valid datagram passes, and its own two addresses come back. */
  lemma SerializedDatagramsPass(d: Datagram)
    requires d.Valid()
    ensures SourceDestination(d.Serialize()) == Success((d.src, d.dst))
  {
    var p := d.Serialize();
    assert p[12..16] == As4(d.src);
    assert p[16..20] == As4(d.dst);
    assert p[12..16] == [p[12], p[13], p[14], p[15]];
    assert p[16..20] == [p[16], p[17], p[18], p[19]];
  }

  /** The datagram whose serialisation is an accepted packet. */
  ghost function Parse(p: Packet): (d: Datagram)
    requires WellFormed(p)
    ensures d.Valid()
  {
    var ihl := p[0] % 16 * 4;
    Datagram(p[1], Word(p[4], p[5]), Word(p[6], p[7]), p[8], p[9], Word(p[10], p[11]),
             Source(p), Destination(p), p[20..ihl], p[ihl..])
  }

  /** The first byte from the version and the length of the options. */
  lemma HeaderLengthByte(b: Byte, options: nat)
    requires b / 16 == 4 && options == b % 16 * 4 - 20
    ensures 4 * 16 + 5 + options / 4 == b
  {}

  lemma ParsedFields(p: Packet)
    requires WellFormed(p)
    ensures Parse(p).Fields() == p[..12]
  {
    var d := Parse(p);
    WordBytes(p[2], p[3]);
    WordBytes(p[4], p[5]);
    WordBytes(p[6], p[7]);
    WordBytes(p[10], p[11]);
    HeaderLengthByte(p[0], |d.options|);
    assert d.TotalLength() == |p| == Word(p[2], p[3]);
  }

  lemma ParsedAddresses(p: Packet)
    requires WellFormed(p)
    ensures As4(Source(p)) == p[12..16] && As4(Destination(p)) == p[16..20]
  {
    As4InvertsAddrFrom4(p[12], p[13], p[14], p[15]);
    As4InvertsAddrFrom4(p[16], p[17], p[18], p[19]);
    assert p[12..16] == [p[12], p[13], p[14], p[15]];
    assert p[16..20] == [p[16], p[17], p[18], p[19]];
  }

  lemma SerializeInvertsParse(p: Packet)
    requires WellFormed(p)
    ensures Parse(p).Serialize() == p
  {
    var ihl := p[0] % 16 * 4;
    ParsedFields(p);
    ParsedAddresses(p);
    assert p == p[..12] + p[12..16] + p[16..20] + p[20..ihl] + p[ihl..];
  }

  /** The check accepts exactly the serialised datagrams: version 4, whole header words and a
      total length that is the length of the packet. */
  lemma AcceptsExactlyDatagrams(p: Packet)
    ensures WellFormed(p) <==> exists d: Datagram :: d.Valid() && d.Serialize() == p
    ensures WellFormed(p) ==> 20 <= |p| <= 65535
  {
    if WellFormed(p) {
      SerializeInvertsParse(p);
    }
    if d: Datagram :| d.Valid() && d.Serialize() == p {
      SerializedDatagramsPass(d);
    }
  }

  /** The same with the source address. */
  lemma AcceptsExactlyDatagramsFrom(p: Packet, a: Addr)
    ensures WellFormed(p) && Source(p) == a <==> exists d: Datagram :: d.Valid() && d.Serialize() == p && d.src == a
  {
    if WellFormed(p) {
      SerializeInvertsParse(p);
      assert Parse(p).src == Source(p);
    }
    if d: Datagram :| d.Valid() && d.Serialize() == p && d.src == a {
      SerializedDatagramsPass(d);
    }
  }
}
