// The two-party HTTP/2 opening (RFC 7540 sections 3.5 and 6.5) over two byte channels.
module H2Handshake {
  import opened Bytes
  import opened H2Frames

  // ---- The opening messages ----

  function Ascii(s: string): (b: seq<byte>)
    ensures |b| == |s|
  {
    seq(|s|, i requires 0 <= i < |s| => s[i] as int % 256)
  }

  const PREFACE: seq<byte> := Ascii("PRI * HTTP/2.0\r\n\r\nSM\r\n\r\n")

  function SettingsPayload(settings: seq<(u16, u32)>): (p: seq<byte>)
    ensures |p| == 6 * |settings|
  {
    if settings == [] then [] else BE16(settings[0].0) + BE32(settings[0].1) + SettingsPayload(settings[1..])
  }

  function SettingsFrame(settings: seq<(u16, u32)>): Frame
  {
    Frame(FRAME_SETTINGS, 0, 0, SettingsPayload(settings))
  }

  function HeaderBytes(headers: seq<(string, string)>): seq<(seq<byte>, seq<byte>)>
  {
    seq(|headers|, i requires 0 <= i < |headers| => (Ascii(headers[i].0), Ascii(headers[i].1)))
  }

  // A literal header field without indexing.
  function Field(name: seq<byte>, value: seq<byte>): seq<byte>
  {
    [0] + [|name| % 256] + name + [|value| % 256] + value
  }

  function FieldBlock(fields: seq<(seq<byte>, seq<byte>)>): seq<byte>
  {
    if fields == [] then [] else Field(fields[0].0, fields[0].1) + FieldBlock(fields[1..])
  }

  function HeaderBlock(headers: seq<(string, string)>): seq<byte>
  {
    FieldBlock(HeaderBytes(headers))
  }

  function HeadersFrame(headers: seq<(string, string)>): Frame
  {
    Frame(FRAME_HEADERS, FLAG_END_HEADERS, 1, HeaderBlock(headers))
  }

  // The frames of one opening; only their types and sizes matter to the exchange.
  datatype Opening = Opening(
    clientSettings: Frame, clientHeaders: Frame,
    serverSettings: Frame, settingsAck: Frame, serverHeaders: Frame)

  predicate Proper(o: Opening)
  {
    && o.clientSettings.ftype == o.serverSettings.ftype == o.settingsAck.ftype == FRAME_SETTINGS
    && o.clientHeaders.ftype == o.serverHeaders.ftype == FRAME_HEADERS
    && WellFormed(o.clientSettings) && WellFormed(o.clientHeaders)
    && WellFormed(o.serverSettings) && WellFormed(o.settingsAck) && WellFormed(o.serverHeaders)
  }

  const CLIENT_SETTINGS: seq<(u16, u32)> := [(0x0001, 65536), (0x0002, 0), (0x0004, 6291456), (0x0006, 262144)]
  const SERVER_SETTINGS: seq<(u16, u32)> := [(0x0003, 100), (0x0004, 16777215), (0x0005, 1048576)]

  const CLIENT_HEADERS: seq<(string, string)> :=
    [(":method", "POST"), (":path", "/api/v1/stream"), (":scheme", "https"),
     (":authority", "update.googleapis.com"), ("content-type", "application/grpc"),
     ("user-agent", "grpc-go/1.59.0"), ("te", "trailers")]
  const SERVER_HEADERS: seq<(string, string)> :=
    [(":status", "200"), ("content-type", "application/grpc"), ("server", "Google Frontend")]

  const HIDEKEY := Opening(
    SettingsFrame(CLIENT_SETTINGS), HeadersFrame(CLIENT_HEADERS),
    SettingsFrame(SERVER_SETTINGS), Frame(FRAME_SETTINGS, FLAG_ACK, 0, []), HeadersFrame(SERVER_HEADERS))

  predicate ShortFields(fields: seq<(seq<byte>, seq<byte>)>)
  {
    forall i :: 0 <= i < |fields| ==> |fields[i].0| < 127 && |fields[i].1| < 127
  }

  predicate ShortHeaders(headers: seq<(string, string)>)
  {
    forall i :: 0 <= i < |headers| ==> |headers[i].0| < 127 && |headers[i].1| < 127
  }

  lemma {:induction false} ShortFieldsFit(fields: seq<(seq<byte>, seq<byte>)>)
    requires ShortFields(fields)
    ensures |FieldBlock(fields)| <= 256 * |fields|
  {
    if fields != [] {
      ShortFieldsFit(fields[1..]);
    }
  }

  lemma HeadersFit(headers: seq<(string, string)>)
    requires ShortHeaders(headers) && |headers| < 0x1_0000
    ensures OnStream(HeadersFrame(headers))
  {
    ShortFieldsFit(HeaderBytes(headers));
  }

  lemma HidekeyIsShort()
    ensures ShortHeaders(CLIENT_HEADERS) && ShortHeaders(SERVER_HEADERS)
  {
  }

  lemma HidekeyIsProper()
    ensures Proper(HIDEKEY)
    ensures OnStream(HIDEKEY.clientSettings) && OnStream(HIDEKEY.clientHeaders)
    ensures OnStream(HIDEKEY.serverSettings) && OnStream(HIDEKEY.settingsAck) && OnStream(HIDEKEY.serverHeaders)
  {
    HidekeyIsShort();
    HeadersFit(CLIENT_HEADERS);
    HeadersFit(SERVER_HEADERS);
  }

  function ClientOutput(o: Opening): seq<byte>
  {
    PREFACE + Wire(o.clientSettings) + Wire(o.clientHeaders)
  }

  function ServerOutput(o: Opening): seq<byte>
  {
    Wire(o.serverSettings) + Wire(o.settingsAck) + Wire(o.serverHeaders)
  }

  // ---- How a peer reads the opening ----

  function ReadSettings(p: seq<byte>): Option<seq<(u16, u32)>>
  {
    if p == [] then Some([])
    else if |p| < 6 then None
    else
      match ReadSettings(p[6..])
      case None => None
      case Some(more) =>
        var value := ((p[2] as int * 256 + p[3]) * 256 + p[4]) * 256 + p[5];
        Some([(p[0] as int * 256 + p[1], value)] + more)
  }

  lemma {:induction false} SettingsReadBack(settings: seq<(u16, u32)>)
    ensures ReadSettings(SettingsPayload(settings)) == Some(settings)
  {
    if settings != [] {
      var id, value, p := settings[0].0, settings[0].1, SettingsPayload(settings);
      BigEndian(id, value, 0);
      assert p[..2] == BE16(id) && p[2..6] == BE32(value) && p[6..] == SettingsPayload(settings[1..]);
      assert p[2] == p[2..6][0] && p[3] == p[2..6][1] && p[4] == p[2..6][2] && p[5] == p[2..6][3];
      SettingsReadBack(settings[1..]);
      assert settings == [settings[0]] + settings[1..];
    }
  }

  // A literal header field without indexing and with a new name (RFC 7541 section 6.2.2), strings
  // uncompressed and shorter than 127 bytes: the name, the value, what follows.
  function ReadField(b: seq<byte>): Option<(seq<byte>, seq<byte>, seq<byte>)>
  {
    if |b| < 2 || b[0] != 0 || b[1] >= 127 || |b| < 3 + b[1] as int then None
    else
      var n := 2 + b[1] as int;
      if b[n] >= 127 || |b| < n + 1 + b[n] as int then None
      else Some((b[2..n], b[n + 1..n + 1 + b[n] as int], b[n + 1 + b[n] as int..]))
  }

  function ReadHeaders(b: seq<byte>): Option<seq<(seq<byte>, seq<byte>)>>
    decreases |b|
  {
    if b == [] then Some([])
    else
      match ReadField(b)
      case None => None
      case Some((name, value, rest)) =>
        match ReadHeaders(rest)
        case None => None
        case Some(more) => Some([(name, value)] + more)
  }

  lemma FieldReads(name: seq<byte>, value: seq<byte>, rest: seq<byte>)
    requires |name| < 127 && |value| < 127
    ensures ReadField(Field(name, value) + rest) == Some((name, value, rest))
  {
    var b := Field(name, value) + rest;
    assert b[0] == 0 && b[1] == |name| && b[2..2 + |name|] == name && b[2 + |name|] == |value|;
    assert b[3 + |name|..3 + |name| + |value|] == value && b[3 + |name| + |value|..] == rest;
  }

  lemma FieldsReadMore(name: seq<byte>, value: seq<byte>, rest: seq<byte>, more: seq<(seq<byte>, seq<byte>)>)
    requires |name| < 127 && |value| < 127 && ReadHeaders(rest) == Some(more)
    ensures ReadHeaders(Field(name, value) + rest) == Some([(name, value)] + more)
  {
    FieldReads(name, value, rest);
  }

  lemma {:induction false} FieldsReadBack(fields: seq<(seq<byte>, seq<byte>)>)
    requires ShortFields(fields)
    ensures ReadHeaders(FieldBlock(fields)) == Some(fields)
  {
    if fields != [] {
      FieldsReadBack(fields[1..]);
      FieldsReadMore(fields[0].0, fields[0].1, FieldBlock(fields[1..]), fields[1..]);
      assert fields == [(fields[0].0, fields[0].1)] + fields[1..];
    }
  }

  // Header by header, what was meant.
  lemma HeadersReadBack(headers: seq<(string, string)>)
    requires ShortHeaders(headers)
    ensures ReadHeaders(HeaderBlock(headers)) == Some(HeaderBytes(headers))
  {
    FieldsReadBack(HeaderBytes(headers));
  }

  // The characters are sent as their codes.
  lemma PrefaceBytes()
    ensures PREFACE == [0x50, 0x52, 0x49, 0x20, 0x2a, 0x20, 0x48, 0x54, 0x54, 0x50, 0x2f, 0x32, 0x2e, 0x30,
                        0x0d, 0x0a, 0x0d, 0x0a, 0x53, 0x4d, 0x0d, 0x0a, 0x0d, 0x0a]
  {
  }

  lemma ThreeFramesRead(a: Frame, b: Frame, c: Frame)
    requires OnStream(a) && OnStream(b) && OnStream(c)
    ensures ReadFrames(Wire(a) + Wire(b) + Wire(c)) == Some([a, b, c])
  {
    assert [a, b, c][1..] == [b, c] && [b, c][1..] == [c] && [c][1..] == [];
    assert WireAll([c]) == Wire(c) + WireAll([]) == Wire(c);
    assert WireAll([a, b, c]) == Wire(a) + Wire(b) + Wire(c);
    FramesReadBack([a, b, c]);
  }

  lemma TwoFramesRead(a: Frame, b: Frame)
    requires OnStream(a) && OnStream(b)
    ensures ReadFrames(Wire(a) + Wire(b)) == Some([a, b])
  {
    assert [a, b][1..] == [b] && [b][1..] == [];
    assert WireAll([b]) == Wire(b) + WireAll([]) == Wire(b);
    assert WireAll([a, b]) == Wire(a) + Wire(b);
    FramesReadBack([a, b]);
  }

  // A settings frame that is no acknowledgement, with these settings.
  predicate SaysSettings(f: Frame, settings: seq<(u16, u32)>)
  {
    f.ftype == 4 && f.flags == 0 && f.streamId == 0 && ReadSettings(f.payload) == Some(settings)
  }

  // A complete header block that opens stream 1 with these headers.
  predicate SaysHeaders(f: Frame, headers: seq<(string, string)>)
  {
    f.ftype == 1 && f.flags == 4 && f.streamId == 1 && ReadHeaders(f.payload) == Some(HeaderBytes(headers))
  }

  lemma PrefaceFirst(o: Opening)
    ensures ClientOutput(o)[..24] == PREFACE
    ensures ClientOutput(o)[24..] == Wire(o.clientSettings) + Wire(o.clientHeaders)
  {
  }

  // What either side says, frame by frame: the client its preface, settings and request headers, the
  // server its settings, an acknowledgement of the client's, and the response headers.
  lemma OpeningReads(o: Opening)
    requires OnStream(o.clientSettings) && OnStream(o.clientHeaders)
    requires OnStream(o.serverSettings) && OnStream(o.settingsAck) && OnStream(o.serverHeaders)
    ensures ClientOutput(o)[..24] == PREFACE
    ensures ReadFrames(ClientOutput(o)[24..]) == Some([o.clientSettings, o.clientHeaders])
    ensures ReadFrames(ServerOutput(o)) == Some([o.serverSettings, o.settingsAck, o.serverHeaders])
  {
    PrefaceFirst(o);
    ThreeFramesRead(o.serverSettings, o.settingsAck, o.serverHeaders);
    TwoFramesRead(o.clientSettings, o.clientHeaders);
  }

  // Settings and headers say what they are meant to say, whichever they are.
  lemma SettingsSaid(settings: seq<(u16, u32)>)
    ensures SaysSettings(SettingsFrame(settings), settings)
  {
    SettingsReadBack(settings);
  }

  lemma HeadersSaid(headers: seq<(string, string)>)
    requires ShortHeaders(headers)
    ensures SaysHeaders(HeadersFrame(headers), headers)
  {
    HeadersReadBack(headers);
  }

  // The two concrete header frames are such frames.
  lemma HidekeyHeaderFrames()
    ensures HIDEKEY.clientHeaders == HeadersFrame(CLIENT_HEADERS) && ShortHeaders(CLIENT_HEADERS)
    ensures HIDEKEY.serverHeaders == HeadersFrame(SERVER_HEADERS) && ShortHeaders(SERVER_HEADERS)
  {
    HidekeyIsShort();
  }

  lemma HidekeySaysSettings()
    ensures SaysSettings(HIDEKEY.clientSettings, CLIENT_SETTINGS)
    ensures SaysSettings(HIDEKEY.serverSettings, SERVER_SETTINGS)
    ensures HIDEKEY.settingsAck == Frame(4, 1, 0, [])
  {
    SettingsSaid(CLIENT_SETTINGS);
    SettingsSaid(SERVER_SETTINGS);
  }

  // The concrete frames are among those that are read back whole.
  lemma HidekeyReads()
    ensures ReadFrames(ClientOutput(HIDEKEY)[24..]) == Some([HIDEKEY.clientSettings, HIDEKEY.clientHeaders])
    ensures ReadFrames(ServerOutput(HIDEKEY)) ==
            Some([HIDEKEY.serverSettings, HIDEKEY.settingsAck, HIDEKEY.serverHeaders])
  {
    HidekeyIsProper();
    OpeningReads(HIDEKEY);
  }

  // ---- The two programs ----

  // A frame reader looks for frames of type `want`, discarding others.
  datatype Side =
    | Preface                                         // server: the 24 preface bytes
    | Header(want: byte)                              // nine header bytes
    | Body(want: byte, ftype: byte, len: nat)         // the payload that header announced
    | Writing(rest: seq<byte>)                        // bytes not yet accepted by the transport
    | Finished
    | Rejected                                        // server: invalid preface

  datatype State = State(client: Side, server: Side, toServer: seq<byte>, toClient: seq<byte>)

  function Start(o: Opening): State
  {
    State(Writing(ClientOutput(o)), Preface, [], [])
  }

  // How many bytes `read_exact` waits for.
  function Needs(s: Side): nat
  {
    match s case Preface => 24 case Header(_) => FRAME_HEADER_SIZE case Body(_, _, len) => len case _ => 0
  }

  predicate Reads(s: Side) { s.Preface? || s.Header? || s.Body? }

  // The reader after it got the bytes it waited for; `found` follows the frame it was looking for.
  function AfterRead(s: Side, bytes: seq<byte>, found: byte -> Side): Side
    requires Reads(s) && |bytes| == Needs(s)
  {
    match s
    case Preface => if bytes == PREFACE then Header(FRAME_SETTINGS) else Rejected
    case Header(want) => Body(want, bytes[3], FromBE24(bytes))
    case Body(want, ftype, _) => if ftype == want then found(want) else Header(want)
  }

  function ClientFound(want: byte): Side
  {
    if want == FRAME_SETTINGS then Header(FRAME_HEADERS) else Finished
  }

  function ServerFound(o: Opening): byte -> Side
  {
    want => if want == FRAME_SETTINGS then Header(FRAME_HEADERS) else Writing(ServerOutput(o))
  }

  // A step of either side: a read that completes, or the transport taking `n` more bytes.
  datatype Step = ClientReads | ServerReads | ClientWrites(n: nat) | ServerWrites(n: nat)

  predicate Enabled(s: State, e: Step)
  {
    match e
    case ClientReads => Reads(s.client) && Needs(s.client) <= |s.toClient|
    case ServerReads => Reads(s.server) && Needs(s.server) <= |s.toServer|
    case ClientWrites(n) => s.client.Writing? && 0 < n <= |s.client.rest|
    case ServerWrites(n) => s.server.Writing? && 0 < n <= |s.server.rest|
  }

  function Next(o: Opening, s: State, e: Step): State
    requires Enabled(s, e)
  {
    match e
    case ClientReads =>
      var n := Needs(s.client);
      s.(client := AfterRead(s.client, s.toClient[..n], ClientFound), toClient := s.toClient[n..])
    case ServerReads =>
      var n := Needs(s.server);
      s.(server := AfterRead(s.server, s.toServer[..n], ServerFound(o)), toServer := s.toServer[n..])
    case ClientWrites(n) =>
      var rest := s.client.rest[n..];
      s.(client := if rest == [] then Header(FRAME_SETTINGS) else Writing(rest),
         toServer := s.toServer + s.client.rest[..n])
    case ServerWrites(n) =>
      var rest := s.server.rest[n..];
      s.(server := if rest == [] then Finished else Writing(rest), toClient := s.toClient + s.server.rest[..n])
  }

  // A side that looks for a frame type, left alone with a stream: what is unread when it has found one.
  function LeftByReader(want: byte, stream: seq<byte>): Option<seq<byte>>
    decreases |stream|
  {
    if |stream| < Needs(Header(want)) then None
    else
      var header := Needs(Header(want));
      var body := AfterRead(Header(want), stream[..header], _ => Finished);
      if |stream| - header < Needs(body) then None
      else
        var rest := stream[header + Needs(body)..];
        var next := AfterRead(body, stream[header..header + Needs(body)], _ => Finished);
        if next == Finished then Some(rest) else LeftByReader(want, rest)
  }

  // It reads like `read_frame_type`.
  lemma {:induction false} ReaderFindsFirst(want: byte, stream: seq<byte>)
    ensures LeftByReader(want, stream) ==
      match FirstOfType(stream, want)
      case None => None
      case Some((_, rest)) => Some(rest)
    decreases |stream|
  {
    if |stream| >= FRAME_HEADER_SIZE && |stream| >= FRAME_HEADER_SIZE + FromBE24(stream) && stream[3] != want {
      ReaderFindsFirst(want, stream[FRAME_HEADER_SIZE + FromBE24(stream)..]);
    }
  }

  // The server turns away exactly a client that does not open with the 24 bytes of the preface, and
  // says nothing more to it.
  lemma WrongPrefaceIsRejected(o: Opening, s: State)
    requires s.server == Preface && |s.toServer| >= 24
    ensures Enabled(s, ServerReads)
    ensures var d := Next(o, s, ServerReads);
      && (d.server == Rejected <==> s.toServer[..24] != PREFACE)
      && d.toClient == s.toClient
      && (d.server == Rejected ==> !Enabled(d, ServerReads) && forall n :: !Enabled(d, ServerWrites(n)))
  {
  }

  // ---- Invariant: what is under way is exactly what the reader still expects ----

  function Unwritten(s: Side): seq<byte>
  {
    if s.Writing? then s.rest else []
  }

  // The bytes the server still has to read, by where it is.
  predicate ServerExpects(o: Opening, s: Side, bytes: seq<byte>)
  {
    match s
    case Preface => bytes == ClientOutput(o)
    case Header(want) =>
      if want == FRAME_SETTINGS then bytes == Wire(o.clientSettings) + Wire(o.clientHeaders)
      else want == FRAME_HEADERS && bytes == Wire(o.clientHeaders)
    case Body(want, ftype, len) =>
      want == ftype &&
      if want == FRAME_SETTINGS then
        len == |o.clientSettings.payload| && bytes == o.clientSettings.payload + Wire(o.clientHeaders)
      else want == FRAME_HEADERS && len == |o.clientHeaders.payload| && bytes == o.clientHeaders.payload
    case Rejected => false
    case _ => bytes == []
  }

  predicate ClientExpects(o: Opening, s: Side, bytes: seq<byte>)
  {
    match s
    case Preface => false
    case Writing(_) => bytes == ServerOutput(o)
    case Header(want) =>
      if want == FRAME_SETTINGS then bytes == ServerOutput(o)
      else
        want == FRAME_HEADERS
        && (bytes == Wire(o.settingsAck) + Wire(o.serverHeaders) || bytes == Wire(o.serverHeaders))
    case Body(want, ftype, len) =>
      if want == FRAME_SETTINGS then
        ftype == want && len == |o.serverSettings.payload|
        && bytes == o.serverSettings.payload + (Wire(o.settingsAck) + Wire(o.serverHeaders))
      else
        want == FRAME_HEADERS &&
        ((ftype == FRAME_SETTINGS && len == |o.settingsAck.payload|
          && bytes == o.settingsAck.payload + Wire(o.serverHeaders))
         || (ftype == FRAME_HEADERS && len == |o.serverHeaders.payload| && bytes == o.serverHeaders.payload))
    case Rejected => false
    case Finished => bytes == []
  }

  predicate ServerHasNotAnswered(s: Side) { Reads(s) || s.Rejected? }

  ghost predicate Inv(o: Opening, s: State)
  {
    && ServerExpects(o, s.server, s.toServer + Unwritten(s.client))
    && (if ServerHasNotAnswered(s.server) then s.toClient == [] && ClientExpects(o, s.client, ServerOutput(o))
        else ClientExpects(o, s.client, s.toClient + Unwritten(s.server)))
    && (s.client.Writing? ==> s.client.rest != []) && (s.server.Writing? ==> s.server.rest != [])
  }

  lemma StartInv(o: Opening)
    ensures Inv(o, Start(o))
  {
  }

  lemma FrameAhead(f: Frame, rest: seq<byte>, bytes: seq<byte>)
    requires WellFormed(f) && bytes == Wire(f) + rest
    ensures |bytes| >= FRAME_HEADER_SIZE && FromBE24(bytes[..FRAME_HEADER_SIZE]) == |f.payload|
    ensures bytes[..FRAME_HEADER_SIZE][3] == f.ftype && bytes[FRAME_HEADER_SIZE..] == f.payload + rest
  {
    HeaderReadsBack(f, rest);
  }

  lemma SkipPayload(p: seq<byte>, rest: seq<byte>)
    ensures (p + rest)[|p|..] == rest
  {
  }

  lemma ServerAdvances(o: Opening, side: Side, all: seq<byte>)
    requires Proper(o) && Reads(side) && ServerExpects(o, side, all) && Needs(side) <= |all|
    ensures ServerExpects(o, AfterRead(side, all[..Needs(side)], ServerFound(o)), all[Needs(side)..])
  {
    match side
    case Preface => PrefaceFirst(o);
    case Header(want) =>
      if want == FRAME_SETTINGS {
        FrameAhead(o.clientSettings, Wire(o.clientHeaders), all);
      } else {
        assert all == Wire(o.clientHeaders) + [];
        FrameAhead(o.clientHeaders, [], all);
      }
    case Body(want, _, _) =>
      if want == FRAME_SETTINGS {
        SkipPayload(o.clientSettings.payload, Wire(o.clientHeaders));
      }
  }

  lemma ClientAdvances(o: Opening, side: Side, all: seq<byte>)
    requires Proper(o) && Reads(side) && ClientExpects(o, side, all) && Needs(side) <= |all|
    ensures ClientExpects(o, AfterRead(side, all[..Needs(side)], ClientFound), all[Needs(side)..])
  {
    match side
    case Header(want) =>
      if want == FRAME_SETTINGS {
        assert all == Wire(o.serverSettings) + (Wire(o.settingsAck) + Wire(o.serverHeaders));
        FrameAhead(o.serverSettings, Wire(o.settingsAck) + Wire(o.serverHeaders), all);
      } else if all == Wire(o.settingsAck) + Wire(o.serverHeaders) {
        FrameAhead(o.settingsAck, Wire(o.serverHeaders), all);
      } else {
        assert all == Wire(o.serverHeaders) + [];
        FrameAhead(o.serverHeaders, [], all);
      }
    case Body(want, ftype, _) =>
      if want == FRAME_SETTINGS {
        SkipPayload(o.serverSettings.payload, Wire(o.settingsAck) + Wire(o.serverHeaders));
      } else if ftype == FRAME_SETTINGS {
        SkipPayload(o.settingsAck.payload, Wire(o.serverHeaders));
      }
  }

  lemma ServerReadKeeps(o: Opening, s: State)
    requires Proper(o) && Inv(o, s) && Enabled(s, ServerReads)
    ensures Inv(o, Next(o, s, ServerReads))
  {
    var n, all := Needs(s.server), s.toServer + Unwritten(s.client);
    assert s.toServer[..n] == all[..n];
    assert s.toServer[n..] + Unwritten(s.client) == all[n..];
    ServerAdvances(o, s.server, all);
  }

  lemma ClientReadKeeps(o: Opening, s: State)
    requires Proper(o) && Inv(o, s) && Enabled(s, ClientReads)
    ensures Inv(o, Next(o, s, ClientReads))
  {
    var n, all := Needs(s.client), s.toClient + Unwritten(s.server);
    assert s.toClient[..n] == all[..n];
    assert s.toClient[n..] + Unwritten(s.server) == all[n..];
    ClientAdvances(o, s.client, all);
  }

  lemma WriteKeeps(o: Opening, s: State, e: Step)
    requires Inv(o, s) && (e.ClientWrites? || e.ServerWrites?) && Enabled(s, e)
    ensures Inv(o, Next(o, s, e))
  {
    if e.ClientWrites? {
      assert s.toServer + s.client.rest[..e.n] + s.client.rest[e.n..] == s.toServer + s.client.rest;
    } else {
      assert s.toClient + s.server.rest[..e.n] + s.server.rest[e.n..] == s.toClient + s.server.rest;
    }
  }

  lemma StepKeeps(o: Opening, s: State, e: Step)
    requires Proper(o) && Inv(o, s) && Enabled(s, e)
    ensures Inv(o, Next(o, s, e))
  {
    match e
    case ClientReads => ClientReadKeeps(o, s);
    case ServerReads => ServerReadKeeps(o, s);
    case _ => WriteKeeps(o, s, e);
  }

  // ---- Runs ----

  function Run(o: Opening, es: seq<Step>): Option<State>
  {
    if es == [] then Some(Start(o))
    else
      var e, before := es[|es| - 1], Run(o, es[..|es| - 1]);
      if before.Some? && Enabled(before.value, e) then Some(Next(o, before.value, e)) else None
  }

  // Strictly smaller after every step.
  function Work(o: Opening, s: State): nat
  {
    var reply := if ServerHasNotAnswered(s.server) then 2 * |ServerOutput(o)| else 0;
    var bodies := (if s.client.Body? then 1 else 0) + (if s.server.Body? then 1 else 0);
    2 * |Unwritten(s.client)| + 2 * |Unwritten(s.server)| + |s.toServer| + |s.toClient| + reply + bodies
  }

  lemma ServerReadReducesWork(o: Opening, s: State)
    requires Proper(o) && Inv(o, s) && Enabled(s, ServerReads)
    ensures Work(o, Next(o, s, ServerReads)) < Work(o, s)
  {
    var d := Next(o, s, ServerReads);
    assert |d.toServer| == |s.toServer| - Needs(s.server);
    ServerReadKeeps(o, s);
    assert d.server != Rejected;
  }

  lemma OtherStepReducesWork(o: Opening, s: State, e: Step)
    requires Enabled(s, e) && !e.ServerReads?
    ensures Work(o, Next(o, s, e)) < Work(o, s)
  {
  }

  lemma StepReducesWork(o: Opening, s: State, e: Step)
    requires Proper(o) && Inv(o, s) && Enabled(s, e)
    ensures Work(o, Next(o, s, e)) < Work(o, s)
  {
    if e.ServerReads? {
      ServerReadReducesWork(o, s);
    } else {
      OtherStepReducesWork(o, s, e);
    }
  }

  lemma {:induction false} RunInv(o: Opening, es: seq<Step>)
    requires Proper(o) && Run(o, es).Some?
    ensures Inv(o, Run(o, es).value)
    ensures |es| + Work(o, Run(o, es).value) <= Work(o, Start(o))
  {
    if es == [] {
      StartInv(o);
    } else {
      var before := Run(o, es[..|es| - 1]).value;
      RunInv(o, es[..|es| - 1]);
      StepKeeps(o, before, es[|es| - 1]);
      StepReducesWork(o, before, es[|es| - 1]);
    }
  }

  predicate Over(s: State) { s.client == Finished && s.server == Finished }

  lemma ServerNeedsAreMet(o: Opening, side: Side, all: seq<byte>)
    requires Proper(o) && Reads(side) && ServerExpects(o, side, all)
    ensures Needs(side) <= |all|
  {
  }

  lemma ClientNeedsAreMet(o: Opening, side: Side, all: seq<byte>)
    requires Proper(o) && Reads(side) && ClientExpects(o, side, all)
    ensures Needs(side) <= |all|
  {
  }

  lemma SomeStepIsEnabled(o: Opening, s: State) returns (e: Step)
    requires Proper(o) && Inv(o, s) && !Over(s)
    ensures Enabled(s, e)
  {
    if s.client.Writing? {
      e := ClientWrites(1);
    } else if s.server.Writing? {
      e := ServerWrites(1);
    } else if Reads(s.server) {
      ServerNeedsAreMet(o, s.server, s.toServer + []);
      e := ServerReads;
    } else {
      ClientNeedsAreMet(o, s.client, s.toClient + []);
      e := ClientReads;
    }
  }

  // Every interleaving ends, none can get stuck before both sides are done, and when they are,
  // each has consumed exactly what the other sent.
  lemma OpeningCompletes(o: Opening, es: seq<Step>)
    requires Proper(o) && Run(o, es).Some?
    ensures |es| <= Work(o, Start(o))
    ensures !Over(Run(o, es).value) ==> exists e :: Enabled(Run(o, es).value, e)
    ensures Over(Run(o, es).value) ==> Run(o, es).value.toServer == [] && Run(o, es).value.toClient == []
    ensures Run(o, es).value.server != Rejected
  {
    RunInv(o, es);
    if !Over(Run(o, es).value) {
      var e := SomeStepIsEnabled(o, Run(o, es).value);
    }
  }
}
