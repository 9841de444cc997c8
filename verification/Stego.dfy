// RTP disguise, size padding and length prefixes: the nested framing of the Hidekey stream.
module Stego {
  import opened Bytes

  const RTP_HEADER_SIZE: nat := 12

  datatype RtpHeader = RtpHeader(
    version: bv8, padding: bool, extension: bool, csrcCount: bv8,
    marker: bool, payloadType: bv8,
    seqNumber: u16, timestamp: u32, ssrc: u32)

  // The fields that RFC 3550 section 5.1 gives two, four and seven bits.
  predicate InRange(h: RtpHeader)
  {
    h.version < 4 && h.csrcCount < 16 && h.payloadType < 128
  }

  function NewHeader(seqNumber: u16, timestamp: u32, ssrc: u32): RtpHeader
  {
    RtpHeader(2, false, false, 0, false, 111, seqNumber, timestamp, ssrc)
  }

  // V (2 bits), P, X, CC (4 bits).
  function FirstByte(version: bv8, padding: bool, extension: bool, csrcCount: bv8): bv8
  {
    ((version & 0x03) << 6) | (if padding then 0x20 else 0) | (if extension then 0x10 else 0) | (csrcCount & 0x0F)
  }

  // M, PT (7 bits).
  function SecondByte(payloadType: bv8, marker: bool): bv8
  {
    (payloadType & 0x7F) | (if marker then 0x80 else 0)
  }

  function FlagBytes(h: RtpHeader): (bv8, bv8)
  {
    (FirstByte(h.version, h.padding, h.extension, h.csrcCount), SecondByte(h.payloadType, h.marker))
  }

  function Serialize(h: RtpHeader): (s: seq<byte>)
    ensures |s| == RTP_HEADER_SIZE
  {
    var (b0, b1) := FlagBytes(h);
    CastRoundTrip(b0);
    CastRoundTrip(b1);
    [b0 as int, b1 as int] + BE16(h.seqNumber) + BE32(h.timestamp) + BE32(h.ssrc)
  }

  function Deserialize(buf: seq<byte>): RtpHeader
    requires |buf| == RTP_HEADER_SIZE
  {
    var b0, b1 := buf[0] as bv8, buf[1] as bv8;
    RtpHeader((b0 >> 6) & 0x03, b0 & 0x20 != 0, b0 & 0x10 != 0, b0 & 0x0F,
              b1 & 0x80 != 0, b1 & 0x7F,
              FromBE16(buf[2..4]), FromBE32(buf[4..8]), FromBE32(buf[8..12]))
  }

  method BuildFirstByte(version: bv8, padding: bool, extension: bool, csrcCount: bv8) returns (b0: bv8)
    ensures b0 == FirstByte(version, padding, extension, csrcCount)
  {
    b0 := (version & 0x03) << 6;
    if padding { b0 := b0 | 0x20; }
    if extension { b0 := b0 | 0x10; }
    b0 := b0 | (csrcCount & 0x0F);
  }

  method BuildSecondByte(payloadType: bv8, marker: bool) returns (b1: bv8)
    ensures b1 == SecondByte(payloadType, marker)
  {
    b1 := payloadType & 0x7F;
    if marker { b1 := b1 | 0x80; }
  }

  method SerializeInto(h: RtpHeader, buf: array<byte>)
    requires buf.Length == RTP_HEADER_SIZE
    modifies buf
    ensures buf[..] == Serialize(h)
  {
    var b0 := BuildFirstByte(h.version, h.padding, h.extension, h.csrcCount);
    var b1 := BuildSecondByte(h.payloadType, h.marker);
    CastRoundTrip(b0);
    CastRoundTrip(b1);
    var bytes: seq<byte> := [b0 as int, b1 as int] + BE16(h.seqNumber) + BE32(h.timestamp) + BE32(h.ssrc);
    forall i | 0 <= i < RTP_HEADER_SIZE {
      buf[i] := bytes[i];
    }
  }

  lemma FieldsOfFirstByte(version: bv8, padding: bool, extension: bool, csrcCount: bv8)
    ensures var b := FirstByte(version, padding, extension, csrcCount);
      && (b >> 6) & 0x03 == version & 0x03 && b & 0x0F == csrcCount & 0x0F
      && (b & 0x20 != 0 <==> padding) && (b & 0x10 != 0 <==> extension)
  {
  }

  lemma FieldsOfSecondByte(payloadType: bv8, marker: bool)
    ensures var b := SecondByte(payloadType, marker);
      b & 0x7F == payloadType & 0x7F && (b & 0x80 != 0 <==> marker)
  {
  }

  lemma Masks(v: bv8)
    ensures v & 0x03 == v <==> v < 4
    ensures v & 0x0F == v <==> v < 16
    ensures v & 0x7F == v <==> v < 128
  {
  }

  lemma SerializedFlags(h: RtpHeader)
    ensures (Serialize(h)[0] as bv8, Serialize(h)[1] as bv8) == FlagBytes(h)
  {
    CastRoundTrip(FlagBytes(h).0);
    CastRoundTrip(FlagBytes(h).1);
  }

  lemma FlagsOfBuffer(buf: seq<byte>, b0: bv8, b1: bv8)
    requires |buf| == RTP_HEADER_SIZE && buf[0] as bv8 == b0 && buf[1] as bv8 == b1
    ensures var d := Deserialize(buf);
      && d.version == (b0 >> 6) & 0x03 && d.csrcCount == b0 & 0x0F && d.payloadType == b1 & 0x7F
      && d.padding == (b0 & 0x20 != 0) && d.extension == (b0 & 0x10 != 0) && d.marker == (b1 & 0x80 != 0)
  {
  }

  lemma DeserializedFlags(h: RtpHeader)
    ensures var d := Deserialize(Serialize(h));
      && d.version == h.version & 0x03 && d.csrcCount == h.csrcCount & 0x0F && d.payloadType == h.payloadType & 0x7F
      && d.padding == h.padding && d.extension == h.extension && d.marker == h.marker
  {
    SerializedFlags(h);
    FlagsOfBuffer(Serialize(h), FlagBytes(h).0, FlagBytes(h).1);
    FieldsOfFirstByte(h.version, h.padding, h.extension, h.csrcCount);
    FieldsOfSecondByte(h.payloadType, h.marker);
  }

  // Serialising loses nothing exactly for headers whose small fields are in range.
  lemma HeaderRoundTripExactly(h: RtpHeader)
    ensures Deserialize(Serialize(h)) == h <==> InRange(h)
  {
    DeserializedFlags(h);
    SerializedNumbers(h);
    Masks(h.version);
    Masks(h.csrcCount);
    Masks(h.payloadType);
  }

  lemma SerializedNumbers(h: RtpHeader)
    ensures var s := Serialize(h);
      FromBE16(s[2..4]) == h.seqNumber && FromBE32(s[4..8]) == h.timestamp && FromBE32(s[8..12]) == h.ssrc
  {
    var s := Serialize(h);
    assert s[2..4] == BE16(h.seqNumber) + [] && s[4..8] == BE32(h.timestamp) + [] && s[8..12] == BE32(h.ssrc) + [];
    BE16RoundTrip(h.seqNumber, []);
    BE32RoundTrip(h.timestamp, []);
    BE32RoundTrip(h.ssrc, []);
  }

  lemma FlagsRebuilt(b: bv8)
    ensures ((((b >> 6) & 0x03) & 0x03) << 6) | (if b & 0x20 != 0 then 0x20 else 0)
            | (if b & 0x10 != 0 then 0x10 else 0) | ((b & 0x0F) & 0x0F) == b
    ensures ((b & 0x7F) & 0x7F) | (if b & 0x80 != 0 then 0x80 else 0) == b
  {
  }

  lemma BufferRoundTrip(buf: seq<byte>)
    requires |buf| == RTP_HEADER_SIZE
    ensures Serialize(Deserialize(buf)) == buf
  {
    FlagsRebuilt(buf[0] as bv8);
    FlagsRebuilt(buf[1] as bv8);
    IntRoundTrip(buf[0]);
    IntRoundTrip(buf[1]);
    BE16Surjective(buf[2..4]);
    BE32Surjective(buf[4..8]);
    BE32Surjective(buf[8..12]);
    assert buf == buf[..2] + buf[2..4] + buf[4..8] + buf[8..12];
  }

  // ---- Packing ----

  datatype Rtp = Rtp(seqNumber: u16, timestamp: u32, ssrc: u32)

  const TIMESTAMP_INCREMENT: u32 := 960

  function Pack(st: Rtp, payload: seq<byte>): seq<byte>
  {
    Serialize(NewHeader(st.seqNumber, st.timestamp, st.ssrc)) + payload
  }

  function Advance(st: Rtp): Rtp
  {
    Rtp(Truncate16(st.seqNumber + 1), Wrap32(st.timestamp + TIMESTAMP_INCREMENT), st.ssrc)
  }

  // The payload of a version 2 packet; the version is the top two bits of the first byte.
  function UnpackRtp(packet: seq<byte>): Option<seq<byte>>
  {
    if |packet| < RTP_HEADER_SIZE || packet[0] / 64 != 2 then None else Some(packet[RTP_HEADER_SIZE..])
  }

  lemma TopBits(b: bv8)
    ensures ((b >> 6) & 0x03) as int == b as int / 64
  {
  }

  lemma VersionBits(buf: seq<byte>)
    requires |buf| == RTP_HEADER_SIZE
    ensures Deserialize(buf).version as int == buf[0] / 64
  {
    TopBits(buf[0] as bv8);
    IntRoundTrip(buf[0]);
  }

  method UnpackPacket(packet: seq<byte>) returns (payload: Option<seq<byte>>)
    ensures payload == UnpackRtp(packet)
  {
    if |packet| < RTP_HEADER_SIZE {
      return None;
    }
    var version: int := Deserialize(packet[..RTP_HEADER_SIZE]).version as int;
    VersionBits(packet[..RTP_HEADER_SIZE]);
    if version != 2 {
      return None;
    }
    return Some(packet[RTP_HEADER_SIZE..]);
  }

  lemma FlagNumbers(version: bv8, padding: bool, extension: bool, csrcCount: bv8, payloadType: bv8, marker: bool)
    ensures FirstByte(version, padding, extension, csrcCount)
         == (version & 0x03) * 64 + (if padding then 32 else 0) + (if extension then 16 else 0) + (csrcCount & 0x0F)
    ensures SecondByte(payloadType, marker) == (if marker then 128 else 0) + (payloadType & 0x7F)
  {
  }

  // The state before the i-th packet.
  function RtpAt(st: Rtp, i: nat): Rtp
  {
    if i == 0 then st else Advance(RtpAt(st, i - 1))
  }

  lemma AddWraps32(x: nat, y: nat)
    ensures Wrap32(Wrap32(x) + y) == Wrap32(x + y)
  {
    var q, r := x / 0x1_0000_0000, x % 0x1_0000_0000;
    assert x + y == q * 0x1_0000_0000 + (r + y);
    MultipleOf32Vanishes(r + y, q);
  }

  lemma MultipleOf32Vanishes(x: nat, k: nat)
    ensures Wrap32(x + k * 0x1_0000_0000) == Wrap32(x)
  {
    var q, r := x / 0x1_0000_0000, x % 0x1_0000_0000;
    assert x + k * 0x1_0000_0000 == (q + k) * 0x1_0000_0000 + r;
  }

  lemma {:induction false} NumbersAt(st: Rtp, i: nat)
    ensures var s := RtpAt(st, i);
      && s.seqNumber == Truncate16(st.seqNumber + i) && s.timestamp == Wrap32(st.timestamp + 960 * i)
      && s.ssrc == st.ssrc
  {
    if i > 0 {
      NumbersAt(st, i - 1);
      WrapNext16(st.seqNumber + (i - 1));
      AddWraps32(st.timestamp + 960 * (i - 1), 960);
    }
  }

  // The i-th packet of a session as an RTP receiver reads it: version 2 without padding, extension or
  // sources, payload type 111 without marker, a sequence number one higher, 960 samples later, from
  // the same source.
  lemma PacketReads(st: Rtp, i: nat, payload: seq<byte>)
    ensures var p := Pack(RtpAt(st, i), payload);
      && |p| == 12 + |payload| && p[0] == 128 && p[1] == 111
      && p[2] as int * 256 + p[3] == (st.seqNumber + i) % 0x1_0000
      && FromBE32(p[4..8]) == (st.timestamp + 960 * i) % 0x1_0000_0000
      && FromBE32(p[8..12]) == st.ssrc
      && p[12..] == payload
  {
    var s := RtpAt(st, i);
    var h := NewHeader(s.seqNumber, s.timestamp, s.ssrc);
    NumbersAt(st, i);
    SerializedNumbers(h);
    PlainFlags();
    var p, b := Pack(s, payload), Serialize(h);
    assert p[2..4] == b[2..4] && p[4..8] == b[4..8] && p[8..12] == b[8..12];
    assert p[2..4][0] == p[2] && p[2..4][1] == p[3];
  }

  lemma PlainFlags()
    ensures FirstByte(2, false, false, 0) as int == 128 && SecondByte(111, false) as int == 111
  {
  }

  class RtpSessionState {
    var seqNumber: u16
    var timestamp: u32
    var ssrc: u32

    constructor (st: Rtp)
      ensures View() == st
    {
      seqNumber, timestamp, ssrc := st.seqNumber, st.timestamp, st.ssrc;
    }

    function View(): Rtp
      reads this
    {
      Rtp(seqNumber, timestamp, ssrc)
    }

    method PackPayload(payload: seq<byte>) returns (packet: seq<byte>)
      modifies this
      ensures packet == Pack(old(View()), payload) && View() == Advance(old(View()))
    {
      var header := new byte[RTP_HEADER_SIZE];
      SerializeInto(NewHeader(seqNumber, timestamp, ssrc), header);
      packet := header[..] + payload;
      seqNumber := Truncate16(seqNumber + 1);
      timestamp := Wrap32(timestamp + TIMESTAMP_INCREMENT);
    }
  }

  lemma UnpackUndoesPack(st: Rtp, payload: seq<byte>)
    ensures UnpackRtp(Pack(st, payload)) == Some(payload)
    ensures FromBE16(Pack(st, payload)[2..4]) == st.seqNumber
  {
    var h := NewHeader(st.seqNumber, st.timestamp, st.ssrc);
    HeaderRoundTripExactly(h);
    SerializedNumbers(h);
    assert Pack(st, payload)[..RTP_HEADER_SIZE] == Serialize(h);
    assert Pack(st, payload)[2..4] == Serialize(h)[2..4];
    assert Pack(st, payload)[RTP_HEADER_SIZE..] == payload;
  }

  // ---- Length prefix ----

  function LengthPrefix(packet: seq<byte>): seq<byte>
  {
    BE16(Truncate16(|packet|)) + packet
  }

  // What a receiver cuts out of a frame: the slice the two-byte prefix names.
  function PrefixedSlice(frame: seq<byte>): Option<seq<byte>>
  {
    if |frame| < 2 || |frame| < 2 + FromBE16(frame) then None
    else Some(frame[2..2 + FromBE16(frame)])
  }

  lemma PrefixedSliceOfPrefix(packet: seq<byte>, padding: seq<byte>)
    ensures PrefixedSlice(LengthPrefix(packet) + padding) == Some(packet[..Truncate16(|packet|)])
  {
    var frame := LengthPrefix(packet) + padding;
    assert frame == BE16(Truncate16(|packet|)) + (packet + padding);
    BE16RoundTrip(Truncate16(|packet|), packet + padding);
    assert frame[2..2 + Truncate16(|packet|)] == packet[..Truncate16(|packet|)];
  }

  // ---- Size padding ----

  const JITTER_MAX: nat := 64
  const SIZE_BUCKETS: seq<nat> := [128, 256, 512, 1024, 1460, 4096, 8192, 16384]

  // The first bucket that holds `len` bytes, or `len` itself past the largest one.
  ghost predicate IsTarget(len: nat, target: nat)
  {
    if exists b <- SIZE_BUCKETS :: b >= len
    then target in SIZE_BUCKETS && target >= len && forall b <- SIZE_BUCKETS :: b >= len ==> target <= b
    else target == len
  }

  // `amnezia_pad` for one draw of the jitter and of the filler bytes.
  method AmneziaPad(data: seq<byte>, jitter: nat, filler: nat -> byte) returns (out: seq<byte>)
    requires jitter <= JITTER_MAX
    ensures data <= out && IsTarget(|data| + jitter, |out|)
  {
    var paddedLen := |data| + jitter;
    var target := paddedLen;
    var i := 0;
    var found := false;
    while i < |SIZE_BUCKETS| && !found
      invariant 0 <= i <= |SIZE_BUCKETS|
      invariant found ==> 0 < i && target == SIZE_BUCKETS[i - 1] >= paddedLen
      invariant !found ==> target == paddedLen
      invariant forall j :: 0 <= j < (if found then i - 1 else i) ==> SIZE_BUCKETS[j] < paddedLen
      decreases |SIZE_BUCKETS| - i, !found
    {
      if SIZE_BUCKETS[i] >= paddedLen {
        target, found := SIZE_BUCKETS[i], true;
      }
      i := i + 1;
    }
    assert forall a, b :: 0 <= a <= b < |SIZE_BUCKETS| ==> SIZE_BUCKETS[a] <= SIZE_BUCKETS[b];
    var pad: seq<byte> := [];
    for k := 0 to target - |data|
      invariant |pad| == k
    {
      pad := pad + [filler(k)];
    }
    out := data + pad;
  }

  // The whole nest comes apart exactly for payloads whose packet length fits the prefix.
  lemma NestInvertsExactly(st: Rtp, payload: seq<byte>, padded: seq<byte>)
    requires LengthPrefix(Pack(st, payload)) <= padded
    ensures PrefixedSlice(padded).Some?
    ensures UnpackRtp(PrefixedSlice(padded).value) == Some(payload) <==> RTP_HEADER_SIZE + |payload| <= 0xFFFF
  {
    var packet := Pack(st, payload);
    var padding := padded[|LengthPrefix(packet)|..];
    assert padded == LengthPrefix(packet) + padding;
    PrefixedSliceOfPrefix(packet, padding);
    if |packet| <= 0xFFFF {
      assert packet[..|packet|] == packet;
      UnpackUndoesPack(st, payload);
    }
  }

  // ---- A stream of prefixed frames ----

  datatype FrameError = UnexpectedEof | ZeroLength

  function ReadFrame(stream: seq<byte>): Result<(seq<byte>, seq<byte>), FrameError>
  {
    if |stream| < 2 then Err(UnexpectedEof)
    else if FromBE16(stream) == 0 then Err(ZeroLength)
    else if |stream| < 2 + FromBE16(stream) then Err(UnexpectedEof)
    else Ok((stream[2..2 + FromBE16(stream)], stream[2 + FromBE16(stream)..]))
  }

  // A frame is read exactly if its two length bytes and as many bytes more are there and the length is
  // not zero; a zero length is an error of its own.
  lemma ReadFrameExactly(stream: seq<byte>)
    ensures match ReadFrame(stream)
      case Ok((frame, rest)) =>
        && |frame| > 0 && |stream| == 2 + |frame| + |rest|
        && stream[0] as int * 256 + stream[1] == |frame| && stream[2..] == frame + rest
      case Err(ZeroLength) => |stream| >= 2 && stream[0] == stream[1] == 0
      case Err(UnexpectedEof) =>
        |stream| < 2 || (stream[..2] != [0, 0] && |stream| < 2 + stream[0] as int * 256 + stream[1])
  {
    if |stream| >= 2 {
      assert FromBE16(stream) == stream[0] as int * 256 + stream[1];
    }
  }

  function Prefixed(packets: seq<seq<byte>>): seq<byte>
  {
    if packets == [] then [] else LengthPrefix(packets[0]) + Prefixed(packets[1..])
  }

  function ReadFrames(stream: seq<byte>, n: nat): Option<seq<seq<byte>>>
  {
    if n == 0 then Some([])
    else
      match ReadFrame(stream)
      case Err(_) => None
      case Ok((frame, rest)) =>
        var more := ReadFrames(rest, n - 1);
        if more.None? then None else Some([frame] + more.value)
  }

  lemma ReadFrameOfPrefix(packet: seq<byte>, rest: seq<byte>)
    requires 0 < |packet| <= 0xFFFF
    ensures ReadFrame(LengthPrefix(packet) + rest) == Ok((packet, rest))
  {
    var stream := LengthPrefix(packet) + rest;
    assert stream == BE16(|packet|) + (packet + rest);
    BE16RoundTrip(|packet|, packet + rest);
    assert stream[2..2 + |packet|] == packet && stream[2 + |packet|..] == rest;
  }

  // Frames of one to 65535 bytes are read back as they were written, whatever follows them.
  lemma {:induction false} FramesRoundTrip(packets: seq<seq<byte>>, rest: seq<byte>)
    requires forall p <- packets :: 0 < |p| <= 0xFFFF
    ensures ReadFrames(Prefixed(packets) + rest, |packets|) == Some(packets)
  {
    if packets != [] {
      var tail := Prefixed(packets[1..]) + rest;
      assert Prefixed(packets) + rest == LengthPrefix(packets[0]) + tail;
      ReadFrameOfPrefix(packets[0], tail);
      FramesRoundTrip(packets[1..], rest);
      assert packets == [packets[0]] + packets[1..];
    }
  }
}
