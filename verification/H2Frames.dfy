// HTTP/2 frames (RFC 7540 sections 4.1 and 6.1) and the DATA stream built on them.
module H2Frames {
  import opened Bytes

  const FRAME_HEADER_SIZE: nat := 9
  const FRAME_DATA: byte := 0x00
  const FRAME_HEADERS: byte := 0x01
  const FRAME_SETTINGS: byte := 0x04
  const FLAG_END_HEADERS: byte := 0x04
  const FLAG_ACK: byte := 0x01
  const MAX_FRAME_PAYLOAD: nat := 1_048_576

  datatype Frame = Frame(ftype: byte, flags: byte, streamId: u32, payload: seq<byte>)

  // The 24-bit length field can carry the payload.
  predicate WellFormed(f: Frame)
  {
    |f.payload| < 0x100_0000
  }

  function FrameHeader(ftype: byte, flags: byte, streamId: u32, len: nat): (h: seq<byte>)
    ensures |h| == FRAME_HEADER_SIZE
  {
    BE24(len) + [ftype, flags] + BE32(streamId % 0x8000_0000)
  }

  function Wire(f: Frame): seq<byte>
  {
    FrameHeader(f.ftype, f.flags, f.streamId, |f.payload|) + f.payload
  }

  function WireAll(fs: seq<Frame>): seq<byte>
  {
    if fs == [] then [] else Wire(fs[0]) + WireAll(fs[1..])
  }

  // What a reader learns from nine header bytes, whatever follows.
  lemma HeaderReadsBack(f: Frame, rest: seq<byte>)
    requires WellFormed(f)
    ensures var s := Wire(f) + rest;
      && |s| >= FRAME_HEADER_SIZE + |f.payload|
      && FromBE24(s) == |f.payload| && s[3] == f.ftype
      && s[FRAME_HEADER_SIZE..] == f.payload + rest
      && s[FRAME_HEADER_SIZE..FRAME_HEADER_SIZE + |f.payload|] == f.payload
      && s[FRAME_HEADER_SIZE + |f.payload|..] == rest
  {
    var s := Wire(f) + rest;
    assert s == BE24(|f.payload|) + s[3..];
    BE24RoundTrip(|f.payload|, s[3..]);
  }

  // ---- Reading frames back, field by field ----

  // A frame off the wire: 24 bits of length, type, flags, a reserved bit, 31 bits of stream id.
  function ReadFrame(s: seq<byte>): Option<(Frame, seq<byte>)>
  {
    if |s| < 9 then None
    else
      var len := (s[0] as int * 256 + s[1]) * 256 + s[2];
      if |s| < 9 + len then None
      else
        var id := (((s[5] % 128) as int * 256 + s[6]) * 256 + s[7]) * 256 + s[8];
        Some((Frame(s[3], s[4], id, s[9..9 + len]), s[9 + len..]))
  }

  function ReadFrames(s: seq<byte>): Option<seq<Frame>>
    decreases |s|
  {
    if s == [] then Some([])
    else
      match ReadFrame(s)
      case None => None
      case Some((f, rest)) =>
        match ReadFrames(rest)
        case None => None
        case Some(more) => Some([f] + more)
  }

  predicate OnStream(f: Frame)
  {
    WellFormed(f) && f.streamId < 0x8000_0000
  }

  lemma StreamIdReads(id: u32)
    requires id < 0x8000_0000
    ensures var b := BE32(id); (((b[0] % 128) as int * 256 + b[1]) * 256 + b[2]) * 256 + b[3] == id
  {
    BigEndian(0, id, 0);
    assert BE32(id)[0] < 128;
  }

  // The reserved bit is sent clear whatever stream id is asked for.
  lemma ReservedBitIsClear(f: Frame)
    ensures Wire(f)[5] < 128
  {
    var h := FrameHeader(f.ftype, f.flags, f.streamId, |f.payload|);
    assert Wire(f)[5] == h[5] && h[5..] == BE32(f.streamId % 0x8000_0000) && h[5] == h[5..][0];
    BigEndian(0, f.streamId % 0x8000_0000, 0);
  }

  lemma FrameReadsBack(f: Frame, rest: seq<byte>)
    requires OnStream(f)
    ensures ReadFrame(Wire(f) + rest) == Some((f, rest))
  {
    HeaderReadsBack(f, rest);
    var s := Wire(f) + rest;
    var h := FrameHeader(f.ftype, f.flags, f.streamId, |f.payload|);
    assert s[..9] == h;
    assert h[5..] == BE32(f.streamId);
    assert s[4] == h[4] && s[5] == h[5..][0] && s[6] == h[5..][1] && s[7] == h[5..][2] && s[8] == h[5..][3];
    StreamIdReads(f.streamId);
  }

  lemma {:induction false} FramesReadBack(fs: seq<Frame>)
    requires forall i :: 0 <= i < |fs| ==> OnStream(fs[i])
    ensures ReadFrames(WireAll(fs)) == Some(fs)
  {
    if fs != [] {
      FrameReadsBack(fs[0], WireAll(fs[1..]));
      FramesReadBack(fs[1..]);
      assert fs == [fs[0]] + fs[1..];
    }
  }

  // ---- Sending ----

  function DataFrame(payload: seq<byte>): Frame
  {
    Frame(FRAME_DATA, 0, 1, payload)
  }

  function DataChunks(data: seq<byte>): (cs: seq<seq<byte>>)
    ensures cs != []
  {
    if |data| <= MAX_FRAME_PAYLOAD then [data]
    else [data[..MAX_FRAME_PAYLOAD]] + DataChunks(data[MAX_FRAME_PAYLOAD..])
  }

  function DataFrames(chunks: seq<seq<byte>>): (fs: seq<Frame>)
    ensures |fs| == |chunks|
  {
    if chunks == [] then [] else [DataFrame(chunks[0])] + DataFrames(chunks[1..])
  }

  lemma {:induction false} ChunksAreTheData(data: seq<byte>)
    ensures Concat(DataChunks(data)) == data
    ensures forall c <- DataChunks(data) :: |c| <= MAX_FRAME_PAYLOAD
    ensures |data| > 0 ==> |DataChunks(data)| == (|data| + MAX_FRAME_PAYLOAD - 1) / MAX_FRAME_PAYLOAD
    ensures |WireAll(DataFrames(DataChunks(data)))| == |data| + |DataChunks(data)| * FRAME_HEADER_SIZE
  {
    var chunks := DataChunks(data);
    if |data| <= MAX_FRAME_PAYLOAD {
      ConcatSnoc([], data);
      assert chunks == [] + [data];
      assert DataFrames(chunks) == [DataFrame(data)];
      assert WireAll(DataFrames(chunks)) == Wire(DataFrame(data)) + WireAll([]);
    } else {
      var rest := data[MAX_FRAME_PAYLOAD..];
      ChunksAreTheData(rest);
      assert chunks[1..] == DataChunks(rest);
      assert DataFrames(chunks)[1..] == DataFrames(DataChunks(rest));
      assert data == data[..MAX_FRAME_PAYLOAD] + rest;
    }
  }

  lemma {:induction false} DataFramesAre(chunks: seq<seq<byte>>)
    ensures forall i :: 0 <= i < |chunks| ==> DataFrames(chunks)[i] == Frame(0, 0, 1, chunks[i])
  {
    if chunks != [] {
      DataFramesAre(chunks[1..]);
      assert forall i :: 1 <= i < |chunks| ==> DataFrames(chunks)[i] == DataFrames(chunks[1..])[i - 1];
    }
  }

  // A receiver reads what was sent as frames of type DATA without flags on stream 1, whose payloads
  // are the chunks.
  lemma SentReadsAsData(data: seq<byte>)
    ensures var fs := ReadFrames(WireAll(DataFrames(DataChunks(data))));
      && fs.Some? && |fs.value| == |DataChunks(data)|
      && forall i :: 0 <= i < |fs.value| ==> fs.value[i] == Frame(0x00, 0x00, 1, DataChunks(data)[i])
  {
    var chunks := DataChunks(data);
    ChunksAreTheData(data);
    DataFramesAre(chunks);
    forall i | 0 <= i < |chunks|
      ensures OnStream(DataFrames(chunks)[i])
    {
      assert chunks[i] in chunks;
    }
    FramesReadBack(DataFrames(chunks));
  }

  // `send_data`: the fast path writes one frame, the slow path batches as many as needed.
  method SendData(data: seq<byte>) returns (written: seq<byte>)
    ensures written == WireAll(DataFrames(DataChunks(data)))
  {
    if |data| <= MAX_FRAME_PAYLOAD {
      written := FrameHeader(FRAME_DATA, 0, 1, |data|) + data;
      assert DataFrames(DataChunks(data)) == [DataFrame(data)];
      assert WireAll([DataFrame(data)]) == Wire(DataFrame(data)) + WireAll([]);
      return;
    }
    var numFrames := (|data| + MAX_FRAME_PAYLOAD - 1) / MAX_FRAME_PAYLOAD;
    var totalSize := |data| + numFrames * FRAME_HEADER_SIZE;
    var batch: seq<byte> := [];
    var offset := 0;
    ghost var goal := WireAll(DataFrames(DataChunks(data)));
    assert data[0..] == data;
    while offset < |data|
      invariant 0 <= offset <= |data|
      invariant goal == batch + if offset < |data| then WireAll(DataFrames(DataChunks(data[offset..]))) else []
    {
      var end := Min(offset + MAX_FRAME_PAYLOAD, |data|);
      var chunk := data[offset..end];
      ChunkTurn(data, offset, end);
      batch := batch + FrameHeader(FRAME_DATA, 0, 1, |chunk|) + chunk;
      offset := end;
    }
    written := batch;
    ChunksAreTheData(data);
    assert |written| == totalSize;
  }

  lemma ChunkTurn(data: seq<byte>, offset: nat, end: nat)
    requires offset < |data| && end == Min(offset + MAX_FRAME_PAYLOAD, |data|)
    ensures WireAll(DataFrames(DataChunks(data[offset..]))) ==
      Wire(DataFrame(data[offset..end])) + if end < |data| then WireAll(DataFrames(DataChunks(data[end..]))) else []
  {
    var d := data[offset..];
    var chunks := DataChunks(d);
    assert chunks[0] == data[offset..end];
    if end < |data| {
      assert d[MAX_FRAME_PAYLOAD..] == data[end..];
      assert chunks[1..] == DataChunks(data[end..]);
      assert DataFrames(chunks)[1..] == DataFrames(DataChunks(data[end..]));
    } else {
      assert d == data[offset..end];
      assert DataFrames(chunks)[1..] == [];
    }
  }

  // ---- Receiving ----

  // `Eof` is the clean end (also inside a frame header), `Broken` an end inside a payload.
  datatype Received = Data(payload: seq<byte>, rest: seq<byte>) | Eof | Broken

  function Recv(stream: seq<byte>): Received
    decreases |stream|
  {
    if |stream| < FRAME_HEADER_SIZE then Eof
    else
      var end := FRAME_HEADER_SIZE + FromBE24(stream);
      if |stream| < end then Broken
      else if stream[3] == FRAME_DATA then Data(stream[FRAME_HEADER_SIZE..end], stream[end..])
      else Recv(stream[end..])
  }

  // The read half of a connection whose peer will send exactly `bytes` and close.
  class Reader {
    var bytes: seq<byte>

    constructor (bytes: seq<byte>)
      ensures this.bytes == bytes
    {
      this.bytes := bytes;
    }

    method ReadExact(n: nat) returns (ok: bool, buffer: seq<byte>)
      modifies this
      ensures ok == (n <= |old(bytes)|)
      ensures ok ==> buffer == old(bytes)[..n] && bytes == old(bytes)[n..]
    {
      ok := n <= |bytes|;
      buffer := [];
      if ok {
        buffer, bytes := bytes[..n], bytes[n..];
      }
    }

    method RecvData() returns (result: Result<Option<seq<byte>>, ()>)
      modifies this
      ensures match Recv(old(bytes))
        case Data(payload, rest) => result == Ok(Some(payload)) && bytes == rest
        case Eof => result == Ok(None)
        case Broken => result == Err(())
    {
      while true
        invariant Recv(bytes) == Recv(old(bytes))
        decreases |bytes|
      {
        ghost var before := bytes;
        var ok, header := ReadExact(FRAME_HEADER_SIZE);
        if !ok {
          return Ok(None);
        }
        var length := FromBE24(header);
        assert length == FromBE24(before);
        var payload;
        ok, payload := ReadExact(length);
        if !ok {
          return Err(());
        }
        assert payload == before[FRAME_HEADER_SIZE..FRAME_HEADER_SIZE + length];
        assert bytes == before[FRAME_HEADER_SIZE + length..];
        if header[3] == FRAME_DATA {
          return Ok(Some(payload));
        }
      }
      assert false;
    }

    // `read_frame_type`; any end of the stream is an error here.
    method ReadFrameType(expected: byte) returns (result: Result<seq<byte>, ()>)
      modifies this
      ensures match FirstOfType(old(bytes), expected)
        case Some((payload, rest)) => result == Ok(payload) && bytes == rest
        case None => result == Err(())
    {
      while true
        invariant FirstOfType(bytes, expected) == FirstOfType(old(bytes), expected)
        decreases |bytes|
      {
        ghost var before := bytes;
        var ok, header := ReadExact(FRAME_HEADER_SIZE);
        if !ok {
          return Err(());
        }
        var length := FromBE24(header);
        assert length == FromBE24(before);
        var payload: seq<byte> := [];
        if length > 0 {
          ok, payload := ReadExact(length);
          if !ok {
            return Err(());
          }
        }
        assert payload == before[FRAME_HEADER_SIZE..FRAME_HEADER_SIZE + length];
        assert bytes == before[FRAME_HEADER_SIZE + length..];
        if header[3] == expected {
          return Ok(payload);
        }
      }
      assert false;
    }
  }

  // The payload of the first frame of a type, and what follows that frame.
  function FirstOfType(stream: seq<byte>, expected: byte): Option<(seq<byte>, seq<byte>)>
    decreases |stream|
  {
    if |stream| < FRAME_HEADER_SIZE then None
    else
      var end := FRAME_HEADER_SIZE + FromBE24(stream);
      if |stream| < end then None
      else if stream[3] == expected then Some((stream[FRAME_HEADER_SIZE..end], stream[end..]))
      else FirstOfType(stream[end..], expected)
  }

  // Looking for a frame consumes everything up to and including it, and nothing behind it.
  lemma {:induction false} FindsFirstOfType(fs: seq<Frame>, k: nat, rest: seq<byte>)
    requires (forall f <- fs :: WellFormed(f)) && k < |fs|
    requires forall i :: 0 <= i < k ==> fs[i].ftype != fs[k].ftype
    ensures FirstOfType(WireAll(fs) + rest, fs[k].ftype) == Some((fs[k].payload, WireAll(fs[k + 1..]) + rest))
  {
    var f, more := fs[0], WireAll(fs[1..]);
    assert WireAll(fs) + rest == Wire(f) + (more + rest);
    HeaderReadsBack(f, more + rest);
    if k > 0 {
      assert f.ftype != fs[k].ftype;
      assert fs[1..][k - 1] == fs[k] && fs[1..][k..] == fs[k + 1..];
      FindsFirstOfType(fs[1..], k - 1, rest);
    }
  }

  predicate NoneOfType(fs: seq<Frame>, ftype: byte)
  {
    forall i :: 0 <= i < |fs| ==> fs[i].ftype != ftype
  }

  lemma NoneOfTypeCons(f: Frame, more: seq<Frame>, ftype: byte)
    ensures NoneOfType([f] + more, ftype) <==> f.ftype != ftype && NoneOfType(more, ftype)
  {
    var fs := [f] + more;
    assert fs[0] == f && forall i :: 0 <= i < |more| ==> fs[i + 1] == more[i];
    assert forall i :: 1 <= i < |fs| ==> fs[i] == more[i - 1];
  }

  lemma FirstOfTypeAtCut(f: Frame, more: seq<byte>, cut: nat, expected: byte)
    requires WellFormed(f) && cut <= |Wire(f) + more|
    ensures var found := FirstOfType((Wire(f) + more)[..cut], expected);
      && (cut < |Wire(f)| ==> found == None)
      && (cut >= |Wire(f)| && f.ftype == expected ==> found.Some?)
      && (cut >= |Wire(f)| && f.ftype != expected ==> found == FirstOfType(more[..cut - |Wire(f)|], expected))
  {
    CutInFirst(f, more, cut);
  }

  // No frame is found exactly if no whole frame of the type is there, wherever the stream is cut.
  lemma {:induction false} FindsNoneExactly(fs: seq<Frame>, cut: nat, expected: byte)
    requires (forall i :: 0 <= i < |fs| ==> WellFormed(fs[i])) && cut <= |WireAll(fs)|
    ensures FirstOfType(WireAll(fs)[..cut], expected) == None <==> NoneOfType(WholeFrames(fs, cut), expected)
  {
    if fs != [] {
      FirstOfTypeAtCut(fs[0], WireAll(fs[1..]), cut, expected);
      if cut >= |Wire(fs[0])| {
        FindsNoneExactly(fs[1..], cut - |Wire(fs[0])|, expected);
        NoneOfTypeCons(fs[0], WholeFrames(fs[1..], cut - |Wire(fs[0])|), expected);
      }
    }
  }

  // `recv_data` called until the stream ends: the chunks and whether the end was clean.
  function RecvAll(stream: seq<byte>): (seq<seq<byte>>, bool)
    decreases |stream|
  {
    match Recv(stream)
    case Eof => ([], true)
    case Broken => ([], false)
    case Data(payload, rest) =>
      RecvShrinks(stream);
      var (more, clean) := RecvAll(rest);
      ([payload] + more, clean)
  }

  lemma RecvShrinks(stream: seq<byte>)
    ensures Recv(stream).Data? ==> |Recv(stream).rest| < |stream|
    decreases |stream|
  {
    if |stream| >= FRAME_HEADER_SIZE && |stream| >= FRAME_HEADER_SIZE + FromBE24(stream) && stream[3] != FRAME_DATA {
      RecvShrinks(stream[FRAME_HEADER_SIZE + FromBE24(stream)..]);
    }
  }

  function DataPayloads(fs: seq<Frame>): seq<seq<byte>>
  {
    if fs == [] then []
    else if fs[0].ftype == FRAME_DATA then [fs[0].payload] + DataPayloads(fs[1..])
    else DataPayloads(fs[1..])
  }

  // Any well-formed frames: exactly the DATA payloads come out, in order.
  lemma {:induction false} RecvAllReadsFrames(fs: seq<Frame>)
    requires forall f <- fs :: WellFormed(f)
    ensures RecvAll(WireAll(fs)) == (DataPayloads(fs), true)
  {
    if fs != [] {
      HeaderReadsBack(fs[0], WireAll(fs[1..]));
      RecvAllReadsFrames(fs[1..]);
    }
  }

  // Data sent in one call is received whole, whatever other frames are interleaved with its frames.
  lemma DataRoundTrip(data: seq<byte>, fs: seq<Frame>)
    requires (forall f <- fs :: WellFormed(f)) && DataPayloads(fs) == DataChunks(data)
    ensures RecvAll(WireAll(fs)).1 && Concat(RecvAll(WireAll(fs)).0) == data
  {
    RecvAllReadsFrames(fs);
    ChunksAreTheData(data);
  }

  // With nothing interleaved, `fs` is what `SendData` writes.
  lemma {:induction false} SentFramesQualify(chunks: seq<seq<byte>>)
    requires forall c <- chunks :: |c| <= MAX_FRAME_PAYLOAD
    ensures (forall f <- DataFrames(chunks) :: WellFormed(f)) && DataPayloads(DataFrames(chunks)) == chunks
  {
    if chunks != [] {
      SentFramesQualify(chunks[1..]);
      assert DataFrames(chunks)[1..] == DataFrames(chunks[1..]);
      assert chunks == [chunks[0]] + chunks[1..];
    }
  }

  // ---- Streams cut short ----

  // The frames that lie whole within the first `cut` bytes, and the bytes behind the last of them.
  function WholeFrames(fs: seq<Frame>, cut: nat): seq<Frame>
  {
    if fs == [] || cut < |Wire(fs[0])| then [] else [fs[0]] + WholeFrames(fs[1..], cut - |Wire(fs[0])|)
  }

  function Tail(fs: seq<Frame>, cut: nat): nat
  {
    if fs == [] || cut < |Wire(fs[0])| then cut else Tail(fs[1..], cut - |Wire(fs[0])|)
  }

  // The first frame of a cut stream, whole or not.
  lemma CutInFirst(f: Frame, rest: seq<byte>, cut: nat)
    requires WellFormed(f) && cut <= |Wire(f) + rest|
    ensures var s := (Wire(f) + rest)[..cut];
      && (cut >= FRAME_HEADER_SIZE ==> FromBE24(s) == |f.payload| && s[3] == f.ftype)
      && (cut >= |Wire(f)| ==>
            s[FRAME_HEADER_SIZE..|Wire(f)|] == f.payload && s[|Wire(f)|..] == rest[..cut - |Wire(f)|])
  {
    HeaderReadsBack(f, rest);
    var whole := Wire(f) + rest;
    var s := whole[..cut];
    if cut >= FRAME_HEADER_SIZE {
      assert s[..3] == whole[..3];
    }
    if cut >= |Wire(f)| {
      assert s[FRAME_HEADER_SIZE..|Wire(f)|] == whole[FRAME_HEADER_SIZE..|Wire(f)|];
    }
  }

  // A connection that breaks anywhere yields exactly the payloads of the whole frames, and the end is
  // reported as clean exactly if it lies between frames or inside a frame header.
  lemma {:induction false} CutStreamExactly(fs: seq<Frame>, cut: nat)
    requires (forall f <- fs :: WellFormed(f)) && cut <= |WireAll(fs)|
    ensures RecvAll(WireAll(fs)[..cut]) == (DataPayloads(WholeFrames(fs, cut)), Tail(fs, cut) < FRAME_HEADER_SIZE)
  {
    if fs != [] {
      var f, rest := fs[0], WireAll(fs[1..]);
      CutInFirst(f, rest, cut);
      if cut >= |Wire(f)| {
        CutStreamExactly(fs[1..], cut - |Wire(f)|);
        CutSkipsFirst(f, fs[1..], cut);
      }
    }
  }

  lemma CutSkipsFirst(f: Frame, more: seq<Frame>, cut: nat)
    requires WellFormed(f) && |Wire(f)| <= cut <= |Wire(f) + WireAll(more)|
    ensures var s := (Wire(f) + WireAll(more))[..cut]; var next := RecvAll(WireAll(more)[..cut - |Wire(f)|]);
      RecvAll(s) == if f.ftype == FRAME_DATA then ([f.payload] + next.0, next.1) else next
  {
    CutInFirst(f, WireAll(more), cut);
  }

  lemma {:induction false} WholeFramesArePrefix(fs: seq<Frame>, cut: nat)
    ensures WholeFrames(fs, cut) <= fs
    ensures DataPayloads(WholeFrames(fs, cut)) <= DataPayloads(fs)
  {
    if fs != [] && cut >= |Wire(fs[0])| {
      WholeFramesArePrefix(fs[1..], cut - |Wire(fs[0])|);
      assert fs == [fs[0]] + fs[1..];
      assert ([fs[0]] + WholeFrames(fs[1..], cut - |Wire(fs[0])|))[1..] == WholeFrames(fs[1..], cut - |Wire(fs[0])|);
    }
  }

  // In particular a cut never yields a partial or foreign payload.
  lemma CutStreamYieldsPrefix(fs: seq<Frame>, cut: nat)
    requires (forall f <- fs :: WellFormed(f)) && cut <= |WireAll(fs)|
    ensures RecvAll(WireAll(fs)[..cut]).0 <= DataPayloads(fs)
  {
    CutStreamExactly(fs, cut);
    WholeFramesArePrefix(fs, cut);
  }

  // Four bytes of a DATA frame: cut inside its header, and yet a clean end.
  lemma CutHeaderLooksClean()
    ensures var f := DataFrame([7]); RecvAll(Wire(f)[..4]) == ([], true) && Tail([f], 4) == 4
  {
    var f := DataFrame([7]);
    assert WireAll([f]) == Wire(f) + WireAll([]) == Wire(f);
    CutStreamExactly([f], 4);
  }

  // ---- Frames of other streams ----

  function StreamOnePayloads(fs: seq<Frame>): seq<seq<byte>>
  {
    if fs == [] then []
    else if fs[0].ftype == FRAME_DATA && fs[0].streamId % 0x8000_0000 == 1 then
      [fs[0].payload] + StreamOnePayloads(fs[1..])
    else StreamOnePayloads(fs[1..])
  }

  predicate ForeignData(f: Frame)
  {
    f.ftype == FRAME_DATA && f.streamId % 0x8000_0000 != 1
  }

  predicate OnlyStreamOne(fs: seq<Frame>)
  {
    forall i :: 0 <= i < |fs| ==> !ForeignData(fs[i])
  }

  lemma {:induction false} StreamOneCounts(fs: seq<Frame>)
    ensures |StreamOnePayloads(fs)| <= |DataPayloads(fs)|
    ensures |StreamOnePayloads(fs)| == |DataPayloads(fs)| <==> OnlyStreamOne(fs)
    ensures OnlyStreamOne(fs) ==> StreamOnePayloads(fs) == DataPayloads(fs)
  {
    if fs != [] {
      StreamOneCounts(fs[1..]);
      var rest := fs[1..];
      assert forall i :: 0 <= i < |rest| ==> rest[i] == fs[i + 1];
      assert forall i :: 1 <= i < |fs| ==> fs[i] == rest[i - 1];
      assert OnlyStreamOne(fs) <==> !ForeignData(fs[0]) && OnlyStreamOne(rest);
    }
  }

  // Exactly the payloads of stream 1 are received if and only if no other stream carries DATA.
  lemma StreamOneExactly(fs: seq<Frame>)
    requires forall f <- fs :: WellFormed(f)
    ensures RecvAll(WireAll(fs)).0 == StreamOnePayloads(fs) <==> OnlyStreamOne(fs)
  {
    RecvAllReadsFrames(fs);
    StreamOneCounts(fs);
  }

  // A DATA frame of stream 3 is received all the same.
  lemma ForeignDataIsReceived()
    ensures var f := Frame(FRAME_DATA, 0, 3, [7]); ForeignData(f) && RecvAll(WireAll([f])) == ([[7]], true)
  {
    var f := Frame(FRAME_DATA, 0, 3, [7]);
    RecvAllReadsFrames([f]);
    assert [f][1..] == [] && DataPayloads([f]) == [[7]] + DataPayloads([]) == [[7]];
  }
}
