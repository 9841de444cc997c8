// The TLS ClientHello with the encrypted session id (RFC 8446 sections 4.1.2 and 4.2).
module ClientHello {
  import opened Bytes
  import opened Aead

  const SID_LEN: nat := 32
  const SID_OFFSET: nat := 44          // of the session id in the record
  const MAX_SNI: nat := 65324

  type Bytes32 = s: seq<byte> | |s| == 32 witness seq(32, _ => 0)

  const SERVER_NAME: u16 := 0x0000
  const GROUPS: u16 := 0x000a
  const SIGNATURE_ALGORITHMS: u16 := 0x000d
  const VERSIONS: u16 := 0x002b
  const ALPN: u16 := 0x0010
  const KEY_SHARE: u16 := 0x0033
  const X25519: u16 := 0x001d

  const GROUP_LIST: seq<u16> := [X25519, 0x0017, 0x0018]
  const SCHEMES: seq<u16> := [0x0403, 0x0804, 0x0401, 0x0503, 0x0805, 0x0501, 0x0806, 0x0601]
  const VERSION_LIST: seq<u16> := [0x0304, 0x0303]
  const PROTOCOLS: seq<seq<byte>> := [[0x68, 0x32], [0x68, 0x74, 0x74, 0x70, 0x2f, 0x31, 0x2e, 0x31]]
  const SUITES: seq<byte> :=
    [0x13, 0x01, 0x13, 0x02, 0x13, 0x03, 0xc0, 0x2b, 0xc0, 0x2f, 0xc0, 0x2c, 0xc0, 0x30,
     0xcc, 0xa9, 0xcc, 0xa8, 0x00, 0x9c, 0x00, 0x9d]

  // ---- The wire grammar: how a receiver reads a hello ----

  datatype Extension = Extension(etype: u16, data: seq<byte>)

  datatype Hello = Hello(random: seq<byte>, sid: seq<byte>, suites: seq<byte>, compression: seq<byte>,
                         extensions: seq<Extension>)

  // A counted vector in front of the input, and what follows it.
  function Vec8(s: seq<byte>): Option<(seq<byte>, seq<byte>)>
  {
    if |s| < 1 || |s| < 1 + s[0] as int then None else Some((s[1..1 + s[0] as int], s[1 + s[0] as int..]))
  }

  function Vec16(s: seq<byte>): Option<(seq<byte>, seq<byte>)>
  {
    if |s| < 2 || |s| < 2 + FromBE16(s) then None else Some((s[2..2 + FromBE16(s)], s[2 + FromBE16(s)..]))
  }

  // A counted vector with nothing behind it.
  function Only16(s: seq<byte>): Option<seq<byte>>
  {
    match Vec16(s)
    case None => None
    case Some((body, rest)) => if rest == [] then Some(body) else None
  }

  function ParseExtensions(s: seq<byte>): Option<seq<Extension>>
    decreases |s|
  {
    if s == [] then Some([])
    else if |s| < 2 then None
    else
      match Vec16(s[2..])
      case None => None
      case Some((data, rest)) =>
        match ParseExtensions(rest)
        case None => None
        case Some(more) => Some([Extension(FromBE16(s), data)] + more)
  }

  function ParseBody(body: seq<byte>): Option<Hello>
  {
    if |body| < 34 || body[..2] != [0x03, 0x03] then None
    else
      match Vec8(body[34..])
      case None => None
      case Some((sid, afterSid)) =>
        match Vec16(afterSid)
        case None => None
        case Some((suites, afterSuites)) =>
          match Vec8(afterSuites)
          case None => None
          case Some((compression, afterCompression)) =>
            match Only16(afterCompression)
            case None => None
            case Some(exts) =>
              match ParseExtensions(exts)
              case None => None
              case Some(extensions) => Some(Hello(body[2..34], sid, suites, compression, extensions))
  }

  function ParseRecord(record: seq<byte>): Option<Hello>
  {
    if |record| < 3 || record[..3] != [0x16, 0x03, 0x01] then None
    else
      match Only16(record[3..])
      case None => None
      case Some(message) =>
        if |message| < 4 || message[0] != 0x01 || FromBE24(message[1..]) != |message| - 4 then None
        else ParseBody(message[4..])
  }

  function ParseServerName(data: seq<byte>): Option<seq<byte>>
  {
    match Only16(data)
    case None => None
    case Some(list) => if list == [] || list[0] != 0 then None else Only16(list[1..])
  }

  function ParseWords(list: seq<byte>): Option<seq<u16>>
  {
    if |list| % 2 != 0 then None
    else Some(seq(|list| / 2, i requires 0 <= i < |list| / 2 => FromBE16(list[2 * i..])))
  }

  function ParseWords16(data: seq<byte>): Option<seq<u16>>
  {
    match Only16(data)
    case None => None
    case Some(list) => ParseWords(list)
  }

  function ParseWords8(data: seq<byte>): Option<seq<u16>>
  {
    match Vec8(data)
    case None => None
    case Some((list, rest)) => if rest == [] then ParseWords(list) else None
  }

  function ParseNames(s: seq<byte>): Option<seq<seq<byte>>>
    decreases |s|
  {
    if s == [] then Some([])
    else
      match Vec8(s)
      case None => None
      case Some((name, rest)) =>
        match ParseNames(rest)
        case None => None
        case Some(more) => Some([name] + more)
  }

  function ParseProtocols(data: seq<byte>): Option<seq<seq<byte>>>
  {
    match Only16(data)
    case None => None
    case Some(list) => ParseNames(list)
  }

  // One key share: its group and key.
  function ParseKeyShare(data: seq<byte>): Option<(u16, seq<byte>)>
  {
    match Only16(data)
    case None => None
    case Some(list) =>
      if |list| < 2 then None
      else
        match Only16(list[2..])
        case None => None
        case Some(key) => Some((FromBE16(list), key))
  }

  // ---- The bytes the builder writes: each length is a 16-bit cast, exact or not ----

  function Count16(body: seq<byte>): seq<byte>
  {
    BE16(Truncate16(|body|)) + body
  }

  // Written from the back, as the loop over a list appends it.
  function Words(ws: seq<u16>): (s: seq<byte>)
    ensures |s| == 2 * |ws|
  {
    if ws == [] then [] else Words(ws[..|ws| - 1]) + BE16(ws[|ws| - 1])
  }

  function Names(ps: seq<seq<byte>>): seq<byte>
  {
    if ps == [] then [] else Names(ps[..|ps| - 1]) + [|ps[|ps| - 1]| % 256] + ps[|ps| - 1]
  }

  function Extensions(sni: seq<byte>, key: Bytes32): seq<Extension>
  {
    [ Extension(SERVER_NAME, Count16([0x00] + Count16(sni))),
      Extension(GROUPS, Count16(Words(GROUP_LIST))),
      Extension(SIGNATURE_ALGORITHMS, Count16(Words(SCHEMES))),
      Extension(VERSIONS, [0x04] + Words(VERSION_LIST)),
      Extension(ALPN, Count16(Names(PROTOCOLS))),
      Extension(KEY_SHARE, Count16(BE16(X25519) + Count16(key))) ]
  }

  function Wire(e: Extension): seq<byte>
  {
    BE16(e.etype) + Count16(e.data)
  }

  function WireAll(es: seq<Extension>): seq<byte>
  {
    if es == [] then [] else Wire(es[0]) + WireAll(es[1..])
  }

  function BodyAround(random: Bytes32, sid: Bytes32, exts: seq<byte>): seq<byte>
  {
    [0x03, 0x03] + random + [0x20] + sid + Count16(SUITES) + [0x01, 0x00] + Count16(exts)
  }

  function Body(random: Bytes32, sid: Bytes32, sni: seq<byte>, key: Bytes32): seq<byte>
  {
    BodyAround(random, sid, WireAll(Extensions(sni, key)))
  }

  function MessageOf(body: seq<byte>): seq<byte>
  {
    [0x01] + BE24(|body|) + body
  }

  function Record(random: Bytes32, sid: Bytes32, sni: seq<byte>, key: Bytes32): seq<byte>
  {
    [0x16, 0x03, 0x01] + Count16(MessageOf(Body(random, sid, sni, key)))
  }

  // Marker, time and up to eight bytes of the short id.
  function SessionPlain(time: u32, shortId: seq<byte>): (p: seq<byte>)
    ensures |p| == 16
  {
    [0x01, 0x08, 0x01, 0x00] + BE32(time)
    + if |shortId| >= 8 then shortId[..8] else shortId + Zeros(8 - |shortId|)
  }

  // What a server reads in it: the time, and the short id with zeros behind it.
  lemma SessionReads(time: u32, shortId: seq<byte>)
    ensures var p := SessionPlain(time, shortId); var n := Min(|shortId|, 8);
      && p[0] == 1 && p[1] == 8 && p[2] == 1 && p[3] == 0
      && FromBE32(p[4..8]) == time
      && p[8..8 + n] == shortId[..n] && forall i :: 8 + n <= i < 16 ==> p[i] == 0
  {
    var p := SessionPlain(time, shortId);
    assert p[4..8] == BE32(time) + [];
    BE32RoundTrip(time, []);
  }

  // The session id is sealed over the message with a zero session id in its place.
  function SealedSid(c: Cipher, authKey: Key, random: Bytes32, sni: seq<byte>, key: Bytes32, plain: seq<byte>)
    : seq<byte>
  {
    c.seal(authKey, random[20..32], MessageOf(Body(random, Zeros(SID_LEN), sni, key)), plain)
  }

  // ---- The builder ----

  method AppendWords(exts: seq<byte>, ws: seq<u16>) returns (longer: seq<byte>)
    ensures longer == exts + Words(ws)
  {
    longer := exts;
    for i := 0 to |ws|
      invariant longer == exts + Words(ws[..i])
    {
      assert ws[..i + 1][..i] == ws[..i];
      longer := longer + BE16(ws[i]);
    }
    assert ws[..|ws|] == ws;
  }

  // A sum of truncated lengths is the truncated sum.
  lemma TruncatesOnce(a: nat, b: nat)
    ensures Truncate16(a + Truncate16(b)) == Truncate16(a + b)
  {
  }

  lemma WireOfCounted(etype: u16, body: seq<byte>)
    ensures Wire(Extension(etype, Count16(body)))
         == BE16(etype) + BE16(Truncate16(2 + |body|)) + BE16(Truncate16(|body|)) + body
  {
  }

  method AppendServerName(exts: seq<byte>, sni: seq<byte>) returns (longer: seq<byte>)
    ensures longer == exts + Wire(Extension(SERVER_NAME, Count16([0x00] + Count16(sni))))
  {
    var nameLen: nat := Truncate16(|sni|);
    var listLen: nat := Truncate16(1 + 2 + nameLen);
    var extLen := Truncate16(2 + listLen);
    TruncatesOnce(3, |sni|);
    TruncatesOnce(2, 3 + |sni|);
    WireOfCounted(SERVER_NAME, [0x00] + Count16(sni));
    longer := exts + BE16(SERVER_NAME);
    longer := longer + BE16(extLen);
    longer := longer + BE16(listLen);
    longer := longer + [0x00];
    longer := longer + BE16(nameLen);
    longer := longer + sni;
  }

  method AppendList(exts: seq<byte>, etype: u16, ws: seq<u16>) returns (longer: seq<byte>)
    ensures longer == exts + Wire(Extension(etype, Count16(Words(ws))))
  {
    var listBodyLen: nat := Truncate16(|ws| * 2);
    TruncatesOnce(2, |ws| * 2);
    WireOfCounted(etype, Words(ws));
    longer := exts + BE16(etype);
    longer := longer + BE16(Truncate16(2 + listBodyLen));
    longer := longer + BE16(listBodyLen);
    longer := AppendWords(longer, ws);
  }

  method AppendVersions(exts: seq<byte>) returns (longer: seq<byte>)
    ensures longer == exts + Wire(Extension(VERSIONS, [0x04] + Words(VERSION_LIST)))
  {
    var listByteCount: byte := |VERSION_LIST| * 2 % 256;
    longer := exts + BE16(VERSIONS) + BE16(Truncate16(1 + listByteCount));
    longer := longer + [listByteCount];
    longer := AppendWords(longer, VERSION_LIST);
  }

  method AppendProtocols(exts: seq<byte>) returns (longer: seq<byte>)
    ensures longer == exts + Wire(Extension(ALPN, Count16(Names(PROTOCOLS))))
  {
    var protoList: seq<byte> := [];
    for i := 0 to |PROTOCOLS|
      invariant protoList == Names(PROTOCOLS[..i])
    {
      assert PROTOCOLS[..i + 1][..i] == PROTOCOLS[..i];
      protoList := protoList + [|PROTOCOLS[i]| % 256];
      protoList := protoList + PROTOCOLS[i];
    }
    assert PROTOCOLS[..|PROTOCOLS|] == PROTOCOLS;
    var protoListLen: nat := Truncate16(|protoList|);
    var extLen := Truncate16(2 + protoListLen);
    TruncatesOnce(2, |protoList|);
    WireOfCounted(ALPN, protoList);
    longer := exts + BE16(ALPN);
    longer := longer + BE16(extLen);
    longer := longer + BE16(protoListLen);
    longer := longer + protoList;
  }

  method AppendKeyShare(exts: seq<byte>, ephemeralPub: Bytes32) returns (longer: seq<byte>)
    ensures longer == exts + Wire(Extension(KEY_SHARE, Count16(BE16(X25519) + Count16(ephemeralPub))))
  {
    var clientSharesLen: nat := Truncate16(2 + 2 + 32);
    WireOfCounted(KEY_SHARE, BE16(X25519) + Count16(ephemeralPub));
    longer := exts + BE16(KEY_SHARE);
    longer := longer + BE16(Truncate16(2 + clientSharesLen));
    longer := longer + BE16(clientSharesLen);
    longer := longer + BE16(X25519);
    longer := longer + BE16(0x0020);
    longer := longer + ephemeralPub;
  }

  // The extensions in the order of the original, three and three.
  method BuildExtensions(sni: seq<byte>, ephemeralPub: Bytes32) returns (exts: seq<byte>)
    ensures exts == WireAll(Extensions(sni, ephemeralPub))
  {
    exts := FirstExtensions(sni, ephemeralPub);
    exts := AppendLast(exts, sni, ephemeralPub);
    SixExtensions(Extensions(sni, ephemeralPub));
  }

  method FirstExtensions(sni: seq<byte>, ephemeralPub: Bytes32) returns (exts: seq<byte>)
    ensures var es := Extensions(sni, ephemeralPub); exts == Wire(es[0]) + Wire(es[1]) + Wire(es[2])
  {
    exts := AppendServerName([], sni);
    assert exts == Wire(Extensions(sni, ephemeralPub)[0]);
    exts := AppendList(exts, GROUPS, GROUP_LIST);
    exts := AppendList(exts, SIGNATURE_ALGORITHMS, SCHEMES);
  }

  method AppendLast(exts: seq<byte>, sni: seq<byte>, ephemeralPub: Bytes32) returns (longer: seq<byte>)
    ensures var es := Extensions(sni, ephemeralPub); longer == exts + Wire(es[3]) + Wire(es[4]) + Wire(es[5])
  {
    longer := AppendVersions(exts);
    longer := AppendProtocols(longer);
    longer := AppendKeyShare(longer, ephemeralPub);
  }

  lemma SixExtensions(es: seq<Extension>)
    requires |es| == 6
    ensures WireAll(es) == Wire(es[0]) + Wire(es[1]) + Wire(es[2]) + Wire(es[3]) + Wire(es[4]) + Wire(es[5])
  {
    assert WireAll(es[6..]) == [];
    forall i | 0 <= i < 6
      ensures WireAll(es[i..]) == Wire(es[i]) + WireAll(es[i + 1..])
    {
      assert es[i..][1..] == es[i + 1..];
    }
    assert es[0..] == es;
  }

  // The body with zeros where the session id will be.
  method AssembleBody(tlsRandom: Bytes32, exts: seq<byte>) returns (chBody: seq<byte>, sessionIdOffset: nat)
    ensures chBody == BodyAround(tlsRandom, Zeros(SID_LEN), exts) && sessionIdOffset == 35
  {
    chBody := [0x03, 0x03];
    chBody := chBody + tlsRandom;
    chBody := chBody + [0x20];
    sessionIdOffset := |chBody|;
    chBody := chBody + Zeros(SID_LEN);
    ghost var head := chBody;
    chBody := chBody + BE16(Truncate16(|SUITES|));
    chBody := chBody + SUITES;
    chBody := chBody + [0x01];
    chBody := chBody + [0x00];
    chBody := chBody + BE16(Truncate16(|exts|));
    chBody := chBody + exts;
    assert chBody == head + (Count16(SUITES) + [0x01, 0x00] + Count16(exts));
  }

  lemma SidSplices(random: Bytes32, before: Bytes32, after: Bytes32, exts: seq<byte>)
    ensures var body := BodyAround(random, before, exts);
      |body| >= 67 && body[..35] + after + body[67..] == BodyAround(random, after, exts)
  {
    var head := [0x03, 0x03] + random + [0x20];
    var tail := Count16(SUITES) + [0x01, 0x00] + Count16(exts);
    assert BodyAround(random, before, exts) == head + before + tail;
    assert BodyAround(random, after, exts) == head + after + tail;
  }

  method BuildTlsClientHello(c: Cipher, kdf: (seq<byte>, seq<byte>) -> Key, sharedSecret: seq<byte>,
                             shortId: seq<byte>, ephemeralPub: Bytes32, sni: seq<byte>,
                             tlsRandom: Bytes32, time: u32) returns (record: seq<byte>)
    requires Correct(c)
    ensures var sid := SealedSid(c, kdf(tlsRandom[..20], sharedSecret), tlsRandom, sni, ephemeralPub,
                                 SessionPlain(time, shortId));
      |sid| == SID_LEN && record == Record(tlsRandom, sid, sni, ephemeralPub)
  {
    var plaintext := [0x01, 0x08, 0x01, 0x00] + BE32(time) + Zeros(8);
    var sidLen := Min(|shortId|, 8);
    plaintext := plaintext[..8] + shortId[..sidLen] + plaintext[8 + sidLen..];
    assert plaintext == SessionPlain(time, shortId);
    var authKey := kdf(tlsRandom[..20], sharedSecret);
    var exts := BuildExtensions(sni, ephemeralPub);

    var chBody, sessionIdOffset := AssembleBody(tlsRandom, exts);

    var hsHeader := [0x01] + BE24(|chBody|);
    var aad := hsHeader + chBody;
    SealOpens(c, authKey, tlsRandom[20..32], aad, plaintext);
    var sid := c.seal(authKey, tlsRandom[20..32], aad, plaintext);
    chBody := chBody[..sessionIdOffset] + sid + chBody[sessionIdOffset + SID_LEN..];
    SidSplices(tlsRandom, Zeros(SID_LEN), sid, exts);

    var recordBodyLen := Truncate16(|hsHeader| + |chBody|);
    record := [0x16];
    record := record + [0x03, 0x01];
    record := record + BE16(recordBodyLen);
    record := record + hsHeader;
    record := record + chBody;
  }

  // ---- Sending in fragments ----

  // `draws(i)` is the random size of fragment `i`; the transport fails at fragment `failsAt`, if ever.
  // Each fragment is as long as drawn, at least a byte, and only the last may be cut by the end.
  method SendFragments(hello: seq<byte>, draws: nat -> nat, failsAt: Option<nat>)
    returns (sent: seq<seq<byte>>, ok: bool)
    ensures Concat(sent) <= hello && (ok <==> Concat(sent) == hello)
    ensures !ok ==> failsAt == Some(|sent|)
    ensures ok && failsAt.Some? ==> |sent| <= failsAt.value
    ensures forall i :: 0 <= i < |sent| ==> 0 < |sent[i]| <= (if draws(i) == 0 then 1 else draws(i))
    ensures forall i :: 0 <= i < |sent| - 1 ==> |sent[i]| == (if draws(i) == 0 then 1 else draws(i))
  {
    sent := [];
    var offset := 0;
    while offset < |hello|
      invariant 0 <= offset <= |hello| && Concat(sent) == hello[..offset]
      invariant failsAt.Some? ==> |sent| <= failsAt.value
      invariant forall i :: 0 <= i < |sent| ==> 0 < |sent[i]| <= Max1(draws(i))
      invariant forall i :: 0 <= i < (if offset < |hello| then |sent| else |sent| - 1) ==> |sent[i]| == Max1(draws(i))
    {
      var size := Max1(draws(|sent|));
      var end := Min(offset + size, |hello|);
      if failsAt == Some(|sent|) {
        return sent, false;
      }
      ConcatSnoc(sent, hello[offset..end]);
      assert hello[..offset] + hello[offset..end] == hello[..end];
      sent := sent + [hello[offset..end]];
      offset := end;
    }
    assert hello[..offset] == hello;
    ok := true;
  }

  function Max1(n: nat): nat
  {
    if n == 0 then 1 else n
  }

  // ---- What the bytes mean to a receiver ----

  lemma Vec8OfCount(body: seq<byte>)
    requires |body| < 256
    ensures Vec8([|body|] + body) == Some((body, []))
  {
    var s := [|body|] + body;
    assert s[1..1 + |body|] == body && s[1 + |body|..] == [];
  }

  lemma Vec16OfCount(body: seq<byte>, rest: seq<byte>)
    requires |body| < 0x1_0000
    ensures Vec16(Count16(body) + rest) == Some((body, rest))
  {
    var s := Count16(body) + rest;
    assert s[0] == |body| / 256 && s[1] == |body| % 256;
    assert s[2..2 + |body|] == body && s[2 + |body|..] == rest;
  }

  lemma Only16OfCountExactly(body: seq<byte>)
    ensures Only16(Count16(body)) == if |body| < 0x1_0000 then Some(body) else None
  {
    var s := Count16(body);
    if |body| < 0x1_0000 {
      Vec16OfCount(body, []);
      assert s + [] == s;
    } else {
      assert FromBE16(s) == Truncate16(|body|);
    }
  }

  lemma ParsesFirst(e: Extension, rest: seq<byte>)
    requires |e.data| < 0x1_0000
    ensures var s := Wire(e) + rest; |s| >= 2 && FromBE16(s) == e.etype && Vec16(s[2..]) == Some((e.data, rest))
  {
    var s := Wire(e) + rest;
    assert s[2..] == Count16(e.data) + rest;
    Vec16OfCount(e.data, rest);
    assert s[0] == e.etype / 256 && s[1] == e.etype % 256;
  }

  lemma ParsesOneMore(e: Extension, rest: seq<byte>, more: seq<Extension>)
    requires |e.data| < 0x1_0000 && ParseExtensions(rest) == Some(more)
    ensures ParseExtensions(Wire(e) + rest) == Some([e] + more)
  {
    ParsesFirst(e, rest);
  }

  lemma {:induction false} ParseUndoesWireAll(es: seq<Extension>)
    requires forall i :: 0 <= i < |es| ==> |es[i].data| < 0x1_0000
    ensures ParseExtensions(WireAll(es)) == Some(es)
  {
    if es != [] {
      ParseUndoesWireAll(es[1..]);
      ParsesOneMore(es[0], WireAll(es[1..]), es[1..]);
      assert es == [es[0]] + es[1..];
    }
  }

  lemma {:induction false} WordAt(ws: seq<u16>, i: nat)
    requires i < |ws|
    ensures FromBE16(Words(ws)[2 * i..]) == ws[i]
  {
    var init := ws[..|ws| - 1];
    if i < |init| {
      WordAt(init, i);
      assert Words(ws)[2 * i] == Words(init)[2 * i] && Words(ws)[2 * i + 1] == Words(init)[2 * i + 1];
    }
  }

  lemma ParseUndoesWords(ws: seq<u16>)
    ensures ParseWords(Words(ws)) == Some(ws)
  {
    var read := ParseWords(Words(ws)).value;
    assert |read| == |ws|;
    forall i | 0 <= i < |ws|
      ensures read[i] == ws[i]
    {
      WordAt(ws, i);
    }
    assert read == ws;
  }

  lemma ExtensionSizes(sni: seq<byte>, key: Bytes32)
    ensures forall i :: 1 <= i < 6 ==> |Extensions(sni, key)[i].data| < 0x1_0000
    ensures |Extensions(sni, key)[0].data| == 5 + |sni|
    ensures |WireAll(Extensions(sni, key))| == 112 + |sni|
  {
    var es := Extensions(sni, key);
    NamesOfProtocols();
    SixExtensions(es);
    assert |Wire(es[0])| == 9 + |sni|;
    assert |Wire(es[1])| == 12 && |Wire(es[2])| == 22 && |Wire(es[3])| == 9;
    assert |Wire(es[4])| == 18 && |Wire(es[5])| == 42;
  }

  lemma NamesOfProtocols()
    ensures |Names(PROTOCOLS)| == 12
    ensures ParseNames(Names(PROTOCOLS)) == Some(PROTOCOLS)
  {
    var h2, http := PROTOCOLS[0], PROTOCOLS[1];
    assert PROTOCOLS[..1] == [h2] && PROTOCOLS[..1][..0] == [];
    var s := Names(PROTOCOLS);
    assert Names([h2]) == [2] + h2;
    assert s == [2] + h2 + [8] + http;
    assert s[1..3] == h2 && s[3..] == [8] + http;
    assert s[3..][1..9] == http && s[3..][9..] == [];
    assert Vec8(s[3..]) == Some((http, []));
    assert ParseNames(s[3..]) == Some([http] + []);
    assert Vec8(s) == Some((h2, s[3..]));
    assert PROTOCOLS == [h2] + ([http] + []);
  }

  lemma BodySize(random: Bytes32, sid: Bytes32, sni: seq<byte>, key: Bytes32)
    ensures |Body(random, sid, sni, key)| == 207 + |sni|
  {
    ExtensionSizes(sni, key);
  }

  lemma BodySplits(random: Bytes32, sid: Bytes32, exts: seq<byte>)
    requires |exts| < 0x1_0000
    ensures var body := BodyAround(random, sid, exts);
      && |body| >= 34 && body[..2] == [0x03, 0x03] && body[2..34] == random
      && Vec8(body[34..]) == Some((sid, Count16(SUITES) + ([0x01, 0x00] + Count16(exts))))
      && Vec16(Count16(SUITES) + ([0x01, 0x00] + Count16(exts))) == Some((SUITES, [0x01, 0x00] + Count16(exts)))
      && Vec8([0x01, 0x00] + Count16(exts)) == Some(([0x00], Count16(exts)))
      && Only16(Count16(exts)) == Some(exts)
  {
    var afterSuites := [0x01, 0x00] + Count16(exts);
    var afterSid := Count16(SUITES) + afterSuites;
    var body := BodyAround(random, sid, exts);
    assert body == [0x03, 0x03] + random + ([0x20] + sid + afterSid);
    assert body[34..] == [0x20] + sid + afterSid;
    Vec16OfCount(SUITES, afterSuites);
    assert afterSuites[1..2] == [0x00] && afterSuites[2..] == Count16(exts);
    Only16OfCountExactly(exts);
  }

  lemma BodyParses(random: Bytes32, sid: Bytes32, sni: seq<byte>, key: Bytes32)
    requires |sni| <= MAX_SNI
    ensures ParseBody(Body(random, sid, sni, key))
         == Some(Hello(random, sid, SUITES, [0x00], Extensions(sni, key)))
  {
    var es := Extensions(sni, key);
    ExtensionSizes(sni, key);
    ParseUndoesWireAll(es);
    BodySplits(random, sid, WireAll(es));
  }

  lemma MessageSplits(body: seq<byte>)
    requires |body| < 0x100_0000
    ensures var m := MessageOf(body);
      |m| == 4 + |body| && m[0] == 0x01 && FromBE24(m[1..]) == |body| && m[4..] == body
  {
    assert MessageOf(body)[1..] == BE24(|body|) + body;
    BE24RoundTrip(|body|, body);
  }

  // Every nested length delimits exactly its body if and only if the name has at most 65324 bytes;
  // a longer one wraps the record length and no receiver can read the hello.
  lemma HelloParsesExactly(random: Bytes32, sid: Bytes32, sni: seq<byte>, key: Bytes32)
    ensures ParseRecord(Record(random, sid, sni, key)) ==
      if |sni| <= MAX_SNI then Some(Hello(random, sid, SUITES, [0x00], Extensions(sni, key))) else None
  {
    var body := Body(random, sid, sni, key);
    var message := MessageOf(body);
    var record := Record(random, sid, sni, key);
    BodySize(random, sid, sni, key);
    Only16OfCountExactly(message);
    assert record[..3] == [0x16, 0x03, 0x01] && record[3..] == Count16(message);
    if |sni| <= MAX_SNI {
      BodyParses(random, sid, sni, key);
      MessageSplits(body);
    }
  }

  lemma ServerNameReads(sni: seq<byte>)
    requires |sni| <= MAX_SNI
    ensures ParseServerName(Count16([0x00] + Count16(sni))) == Some(sni)
  {
    var list := [0x00] + Count16(sni);
    Only16OfCountExactly(sni);
    Only16OfCountExactly(list);
    assert list[1..] == Count16(sni);
  }

  lemma WordsRead(ws: seq<u16>)
    requires |ws| < 0x8000
    ensures ParseWords16(Count16(Words(ws))) == Some(ws)
    ensures |ws| < 128 ==> ParseWords8([2 * |ws|] + Words(ws)) == Some(ws)
  {
    ParseUndoesWords(ws);
    Only16OfCountExactly(Words(ws));
    if |ws| < 128 {
      Vec8OfCount(Words(ws));
    }
  }

  lemma ProtocolsRead()
    ensures ParseProtocols(Count16(Names(PROTOCOLS))) == Some(PROTOCOLS)
  {
    NamesOfProtocols();
    Only16OfCountExactly(Names(PROTOCOLS));
  }

  lemma KeyShareReads(key: Bytes32)
    ensures ParseKeyShare(Count16(BE16(X25519) + Count16(key))) == Some((X25519, key))
  {
    var share := BE16(X25519) + Count16(key);
    Only16OfCountExactly(key);
    Only16OfCountExactly(share);
    assert share[2..] == Count16(key) && FromBE16(share) == X25519;
  }

  lemma FirstExtensionsRead(sni: seq<byte>, key: Bytes32)
    requires |sni| <= MAX_SNI
    ensures var es := Extensions(sni, key);
      && ParseServerName(es[0].data) == Some(sni)
      && ParseWords16(es[1].data) == Some(GROUP_LIST)
      && ParseWords16(es[2].data) == Some(SCHEMES)
  {
    ServerNameReads(sni);
    WordsRead(GROUP_LIST);
    WordsRead(SCHEMES);
  }

  lemma LastExtensionsRead(sni: seq<byte>, key: Bytes32)
    ensures var es := Extensions(sni, key);
      && ParseWords8(es[3].data) == Some(VERSION_LIST)
      && ParseProtocols(es[4].data) == Some(PROTOCOLS)
      && ParseKeyShare(es[5].data) == Some((X25519, key))
  {
    WordsRead(VERSION_LIST);
    ProtocolsRead();
    KeyShareReads(key);
  }

  // Inside the extensions, too, a receiver finds what was meant, wherever the name fits.
  lemma ExtensionsSayWhatIsMeant(sni: seq<byte>, key: Bytes32)
    requires |sni| <= MAX_SNI
    ensures var es := Extensions(sni, key);
      && |es| == 6 && es[0].etype == 0 && es[1].etype == 10 && es[2].etype == 13
      && es[3].etype == 43 && es[4].etype == 16 && es[5].etype == 51
      && ParseServerName(es[0].data) == Some(sni)
      && ParseWords16(es[1].data) == Some(GROUP_LIST)
      && ParseWords16(es[2].data) == Some(SCHEMES)
      && ParseWords8(es[3].data) == Some(VERSION_LIST)
      && ParseProtocols(es[4].data) == Some(PROTOCOLS)
      && ParseKeyShare(es[5].data) == Some((29, key))
  {
    FirstExtensionsRead(sni, key);
    LastExtensionsRead(sni, key);
  }

  // Splicing the session id in changes its 32 bytes and nothing else.
  lemma SpliceChangesOnlySid(random: Bytes32, a: Bytes32, b: Bytes32, sni: seq<byte>, key: Bytes32)
    ensures var r, s := Record(random, a, sni, key), Record(random, b, sni, key);
      && |r| == |s| == 216 + |sni|
      && r[SID_OFFSET..SID_OFFSET + SID_LEN] == a
      && r[..SID_OFFSET] == s[..SID_OFFSET]
      && r[SID_OFFSET + SID_LEN..] == s[SID_OFFSET + SID_LEN..]
  {
    BodySize(random, a, sni, key);
    BodySize(random, b, sni, key);
    SidSits(random, a, sni, key);
    SidSits(random, b, sni, key);
  }

  lemma SidSits(random: Bytes32, sid: Bytes32, sni: seq<byte>, key: Bytes32)
    ensures var r := Record(random, sid, sni, key);
      && |r| == 216 + |sni|
      && r[..SID_OFFSET] == [0x16, 0x03, 0x01] + BE16(Truncate16(211 + |sni|)) + [0x01] + BE24(207 + |sni|)
                            + [0x03, 0x03] + random + [0x20]
      && r[SID_OFFSET..SID_OFFSET + SID_LEN] == sid
      && r[SID_OFFSET + SID_LEN..] == Count16(SUITES) + [0x01, 0x00] + Count16(WireAll(Extensions(sni, key)))
  {
    BodySize(random, sid, sni, key);
    var head := [0x16, 0x03, 0x01] + BE16(Truncate16(211 + |sni|)) + [0x01] + BE24(207 + |sni|)
                + [0x03, 0x03] + random + [0x20];
    var tail := Count16(SUITES) + [0x01, 0x00] + Count16(WireAll(Extensions(sni, key)));
    assert Record(random, sid, sni, key) == head + sid + tail;
  }

  // What a server does: blank the session id in the message it received and open it over the rest.
  function OpenSid(c: Cipher, authKey: Key, record: seq<byte>): Option<seq<byte>>
    requires |record| >= SID_OFFSET + SID_LEN
  {
    var blanked := record[5..SID_OFFSET] + Zeros(SID_LEN) + record[SID_OFFSET + SID_LEN..];
    c.open(authKey, record[31..43], blanked, record[SID_OFFSET..SID_OFFSET + SID_LEN])
  }

  // The server gets back the time and the short id, for a name of any length.
  lemma ServerRecoversSession(c: Cipher, authKey: Key, random: Bytes32, sni: seq<byte>, key: Bytes32, plain: seq<byte>)
    requires Correct(c) && |plain| == 16
    ensures var sid := SealedSid(c, authKey, random, sni, key, plain);
      |sid| == SID_LEN && |Record(random, sid, sni, key)| == 216 + |sni|
      && OpenSid(c, authKey, Record(random, sid, sni, key)) == Some(plain)
  {
    var aad := MessageOf(Body(random, Zeros(SID_LEN), sni, key));
    SealOpens(c, authKey, random[20..32], aad, plain);
    var sid := SealedSid(c, authKey, random, sni, key, plain);
    var record, blank := Record(random, sid, sni, key), Record(random, Zeros(SID_LEN), sni, key);
    SpliceChangesOnlySid(random, sid, Zeros(SID_LEN), sni, key);
    SpliceChangesOnlySid(random, Zeros(SID_LEN), sid, sni, key);
    SidSits(random, sid, sni, key);
    assert blank[5..] == aad;
    Blanked(record, blank);
    assert record[31..43] == record[..SID_OFFSET][31..43] == random[20..32];
  }

  lemma Blanked(r: seq<byte>, blank: seq<byte>)
    requires |r| == |blank| >= SID_OFFSET + SID_LEN
    requires r[..SID_OFFSET] == blank[..SID_OFFSET] && r[SID_OFFSET + SID_LEN..] == blank[SID_OFFSET + SID_LEN..]
    requires blank[SID_OFFSET..SID_OFFSET + SID_LEN] == Zeros(SID_LEN)
    ensures r[5..SID_OFFSET] + Zeros(SID_LEN) + r[SID_OFFSET + SID_LEN..] == blank[5..]
  {
    assert r[5..SID_OFFSET] == r[..SID_OFFSET][5..] == blank[5..SID_OFFSET];
    assert blank[5..] == blank[5..SID_OFFSET] + blank[SID_OFFSET..SID_OFFSET + SID_LEN] + blank[SID_OFFSET + SID_LEN..];
  }
}
