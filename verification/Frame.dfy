/** The v1 frame codec (internal/protocol/frame.go). */
module Frame {
  import opened Prelude

  const VERSION: Byte := 1
  const HEADER_SIZE := 8
  const MAX_PACKET_SIZE := 65535
  const MAGIC_V: Byte := 86
  const MAGIC_L: Byte := 76
  const TYPE_HELLO: Byte := 1
  const TYPE_PACKET: Byte := 3
  const TYPE_ERROR: Byte := 4

  datatype Error =
    | ShortFrame
    | InvalidMagic
    | UnsupportedVersion
    | LengthMismatch
    | PayloadTooLarge
    | InvalidType

  datatype Frame = Frame(typ: Byte, flags: Word16, payload: seq<Byte>)

  predicate ValidType(typ: Byte) { TYPE_HELLO <= typ <= TYPE_ERROR }

  /** The bytes Encode produces. */
  function Encoded(typ: Byte, flags: Word16, payload: seq<Byte>): Result<seq<Byte>, Error> {
    if !ValidType(typ) then Failure(InvalidType)
    else if |payload| > MAX_PACKET_SIZE then Failure(PayloadTooLarge)
    else
      Success([MAGIC_V, MAGIC_L, VERSION, typ, Hi(flags), Lo(flags), Hi(|payload|), Lo(|payload|)] + payload)
  }

  /** The frame Decode reads, with the source's order of checks. */
  function Decoded(b: seq<Byte>): Result<Frame, Error> {
    if |b| < HEADER_SIZE then Failure(ShortFrame)
    else if b[0] != MAGIC_V || b[1] != MAGIC_L then Failure(InvalidMagic)
    else if b[2] != VERSION then Failure(UnsupportedVersion)
    else if !ValidType(b[3]) then Failure(InvalidType)
    else if Word(b[6], b[7]) != |b| - HEADER_SIZE then Failure(LengthMismatch)
    else Success(Frame(b[3], Word(b[4], b[5]), b[HEADER_SIZE..]))
  }

  /** The layout on the wire, byte by byte: "VL", version 1, the type, the flags and the length of
      the payload as 16-bit big-endian numbers, then the payload. */
  predicate Layout(raw: seq<Byte>, typ: Byte, flags: Word16, payload: seq<Byte>) {
    && |raw| == 8 + |payload|
    && raw[0] == 'V' as int && raw[1] == 'L' as int
    && raw[2] == 1 && raw[3] == typ
    && flags == 256 * (raw[4] as int) + raw[5]
    && |payload| == 256 * (raw[6] as int) + raw[7]
    && raw[8..] == payload
  }

  /** Encode writes this layout and no other, for types 1 to 4 and payloads of up to 65,535
      bytes. */
  lemma EncodesExactlyTheLayout(raw: seq<Byte>, typ: Byte, flags: Word16, payload: seq<Byte>)
    ensures Encoded(typ, flags, payload) == Success(raw) <==>
            1 <= typ <= 4 && |payload| <= 65535 && Layout(raw, typ, flags, payload)
  {
    if 1 <= typ <= 4 && |payload| <= 65535 {
      var made := Encoded(typ, flags, payload).value;
      assert made[8..] == payload;
      if |raw| >= 8 {
        BigEndian(raw[4], raw[5], flags);
        BigEndian(raw[6], raw[7], |payload|);
        HeaderAndPayload(raw, made[..8], payload);
      }
      BigEndian(Hi(flags), Lo(flags), flags);
      BigEndian(Hi(|payload|), Lo(|payload|), |payload|);
    }
  }

  /** Two bytes, most significant first, are a number exactly when they are its two halves. */
  lemma BigEndian(hi: Byte, lo: Byte, w: Word16)
    ensures w == 256 * (hi as int) + lo <==> hi == Hi(w) && lo == Lo(w)
  {
    WordBytes(hi, lo);
  }

  lemma HeaderAndPayload(raw: seq<Byte>, header: seq<Byte>, payload: seq<Byte>)
    requires |raw| >= 8 && |header| == 8
    ensures raw == header + payload <==>
            raw[0] == header[0] && raw[1] == header[1] && raw[2] == header[2] && raw[3] == header[3] && raw[4] == header[4]
            && raw[5] == header[5] && raw[6] == header[6] && raw[7] == header[7] && raw[8..] == payload
  {
    assert raw == raw[..8] + raw[8..];
    assert raw[..8] == [raw[0], raw[1], raw[2], raw[3], raw[4], raw[5], raw[6], raw[7]];
    assert header == [header[0], header[1], header[2], header[3], header[4], header[5], header[6], header[7]];
  }

  /** Builds the frame in a freshly allocated buffer. */
  method Encode(typ: Byte, flags: Word16, payload: array<Byte>) returns (r: Result<array<Byte>, Error>)
    ensures r.Failure? ==> Encoded(typ, flags, payload[..]) == Failure(r.error)
    ensures r.Success? ==> fresh(r.value) && Encoded(typ, flags, payload[..]) == Success(r.value[..])
  {
    if !ValidType(typ) {
      return Failure(InvalidType);
    }
    var length := payload.Length;
    if length > MAX_PACKET_SIZE {
      return Failure(PayloadTooLarge);
    }
    var b := new Byte[HEADER_SIZE + length];
    b[0], b[1] := MAGIC_V, MAGIC_L;
    b[2] := VERSION;
    b[3] := typ;
    b[4], b[5] := Hi(flags), Lo(flags);
    b[6], b[7] := Hi(length), Lo(length);
    forall i | 0 <= i < length {
      b[HEADER_SIZE + i] := payload[i];
    }
    assert b[..HEADER_SIZE] == [MAGIC_V, MAGIC_L, VERSION, typ, Hi(flags), Lo(flags), Hi(length), Lo(length)];
    assert b[HEADER_SIZE..] == payload[..];
    assert b[..] == b[..HEADER_SIZE] + b[HEADER_SIZE..];
    r := Success(b);
  }

  /** Reads a frame; the payload is a fresh copy, so later writes to b do not reach it. */
  method Decode(b: array<Byte>) returns (r: Result<(Byte, Word16, array<Byte>), Error>)
    ensures r.Failure? ==> Decoded(b[..]) == Failure(r.error)
    ensures r.Success? ==> fresh(r.value.2)
                           && Decoded(b[..]) == Success(Frame(r.value.0, r.value.1, r.value.2[..]))
  {
    if b.Length < HEADER_SIZE {
      return Failure(ShortFrame);
    }
    if b[0] != MAGIC_V || b[1] != MAGIC_L {
      return Failure(InvalidMagic);
    }
    if b[2] != VERSION {
      return Failure(UnsupportedVersion);
    }
    var typ := b[3];
    if !ValidType(typ) {
      return Failure(InvalidType);
    }
    var n := Word(b[6], b[7]);
    if n != b.Length - HEADER_SIZE {
      return Failure(LengthMismatch);
    }
    var payload := new Byte[n];
    forall i | 0 <= i < n {
      payload[i] := b[HEADER_SIZE + i];
    }
    assert payload[..] == b[..][HEADER_SIZE..];
    r := Success((typ, Word(b[4], b[5]), payload));
  }

  /** Decode inverts Encode, and Encode refuses exactly an unknown type or an oversized payload. */
  lemma DecodeInvertsEncode(f: Frame)
    ensures Encoded(f.typ, f.flags, f.payload).Success? <==>
            ValidType(f.typ) && |f.payload| <= MAX_PACKET_SIZE
    ensures forall raw :: Encoded(f.typ, f.flags, f.payload) == Success(raw) ==> Decoded(raw) == Success(f)
  {
    var e := Encoded(f.typ, f.flags, f.payload);
    if e.Success? {
      assert e.value[HEADER_SIZE..] == f.payload;
    }
  }

  lemma ReencodingRestores(raw: seq<Byte>)
    requires Decoded(raw).Success?
    ensures var f := Decoded(raw).value; Encoded(f.typ, f.flags, f.payload) == Success(raw)
  {
    var f := Decoded(raw).value;
    WordBytes(raw[4], raw[5]);
    WordBytes(raw[6], raw[7]);
    assert raw == raw[..HEADER_SIZE] + raw[HEADER_SIZE..];
    assert raw[..HEADER_SIZE] ==
           [MAGIC_V, MAGIC_L, VERSION, f.typ, Hi(f.flags), Lo(f.flags), Hi(|f.payload|), Lo(|f.payload|)];
  }

  /** Decode accepts exactly the image of Encode, and re-encoding restores the bytes. */
  lemma DecodeAcceptsExactlyEncodings(raw: seq<Byte>)
    ensures Decoded(raw).Success? <==>
            exists f: Frame :: Encoded(f.typ, f.flags, f.payload) == Success(raw)
    ensures Decoded(raw).Success? ==>
              var f := Decoded(raw).value; Encoded(f.typ, f.flags, f.payload) == Success(raw)
  {
    if Decoded(raw).Success? {
      ReencodingRestores(raw);
    }
    if f: Frame :| Encoded(f.typ, f.flags, f.payload) == Success(raw) {
      DecodeInvertsEncode(f);
    }
  }

  /** Which error an input gets. */
  lemma DecodeErrors(b: seq<Byte>)
    ensures Decoded(b) == Failure(ShortFrame) <==> |b| < 8
    ensures Decoded(b) == Failure(InvalidMagic) <==> |b| >= 8 && b[..2] != [86, 76]
    ensures Decoded(b) == Failure(UnsupportedVersion) <==> |b| >= 8 && b[..2] == [86, 76] && b[2] != 1
    ensures Decoded(b) == Failure(InvalidType) <==> |b| >= 8 && b[..3] == [86, 76, 1] && !(1 <= b[3] <= 4)
    ensures Decoded(b) == Failure(LengthMismatch) <==>
            |b| >= 8 && b[..3] == [86, 76, 1] && 1 <= b[3] <= 4 && |b| != 8 + 256 * (b[6] as int) + b[7]
  {
    if |b| >= 8 {
      assert b[..2] == [b[0], b[1]] && b[..3] == [b[0], b[1], b[2]];
    }
  }

  /** No frame is a proper prefix of another: cutting bytes off an accepted frame, or adding
      trailing bytes to it, is always refused, with the length errors only. */
  lemma FramesArePrefixFree(raw: seq<Byte>, other: seq<Byte>)
    requires Decoded(raw).Success?
    requires other < raw || raw < other
    ensures Decoded(other).Failure? && Decoded(other).error in {ShortFrame, LengthMismatch}
  {
    if |other| >= HEADER_SIZE {
      assert forall i :: 0 <= i < HEADER_SIZE ==> other[i] == raw[i];
    }
  }

  // ----- Packet frames -----

  /** What a frame carries. */
  function PayloadOf(raw: seq<Byte>): Packet {
    match Decoded(raw)
    case Success(f) => f.payload
    case Failure(_) => []
  }

  /** A packet frame around these bytes, whatever its flags. */
  ghost predicate CarriesPacket(raw: seq<Byte>, p: Packet) {
    exists flags: Word16 :: Encoded(TYPE_PACKET, flags, p) == Success(raw)
  }

  function Payloads(raws: seq<seq<Byte>>): seq<Packet> {
    seq(|raws|, (k: nat) requires k < |raws| => PayloadOf(raws[k]))
  }

  lemma PayloadsGrow(frames: seq<seq<Byte>>, frame: seq<Byte>)
    ensures Payloads(frames + [frame]) == Payloads(frames) + [PayloadOf(frame)]
  {}

  /** A frame as the write loops build it. */
  ghost predicate GoodFrame(frame: seq<Byte>) {
    Encoded(TYPE_PACKET, 0, PayloadOf(frame)) == Success(frame)
  }

  /** Any packet of at most 65,535 bytes is framed, and its frame reads back as the packet. */
  lemma PacketsAreFramed(p: Packet)
    requires |p| <= MAX_PACKET_SIZE
    ensures Encoded(TYPE_PACKET, 0, p).Success?
    ensures PayloadOf(Encoded(TYPE_PACKET, 0, p).value) == p && GoodFrame(Encoded(TYPE_PACKET, 0, p).value)
  {
    DecodeInvertsEncode(Frame(TYPE_PACKET, 0, p));
  }
}
