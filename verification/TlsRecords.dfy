// The zero-copy TLS 1.3 record layer (RFC 8446 sections 5.2 to 5.4).
module TlsRecords {
  import opened Bytes
  import opened Aead

  const HEADER_LEN: nat := 5
  const APPLICATION_DATA: byte := 0x17
  const ALERT: byte := 0x15
  const MAX_RECORD: nat := 18000
  const SEQ_LIMIT: nat := 0x1_0000_0000_0000_0000

  type Seq = x: int | 0 <= x < SEQ_LIMIT

  function BE64(x: Seq): (s: seq<byte>)
    ensures |s| == 8
  {
    BE32(x / 0x1_0000_0000) + BE32(x % 0x1_0000_0000)
  }

  lemma BE64Injective(x: Seq, y: Seq)
    requires BE64(x) == BE64(y)
    ensures x == y
  {
    assert BE64(x)[..4] == BE32(x / 0x1_0000_0000) && BE64(y)[..4] == BE32(y / 0x1_0000_0000);
    assert BE64(x)[4..] == BE32(x % 0x1_0000_0000) && BE64(y)[4..] == BE32(y % 0x1_0000_0000);
    BE32Injective(x / 0x1_0000_0000, y / 0x1_0000_0000);
    BE32Injective(x % 0x1_0000_0000, y % 0x1_0000_0000);
  }

  // The sequence number folded into the last eight bytes of the IV.
  function RecordNonce(iv: Nonce, n: Seq): Nonce
  {
    iv[..4] + seq(8, i requires 0 <= i < 8 => Xor(iv[4 + i], BE64(n)[i]))
  }

  lemma NoncesDiffer(iv: Nonce, n: Seq, m: Seq)
    requires RecordNonce(iv, n) == RecordNonce(iv, m)
    ensures n == m
  {
    forall i | 0 <= i < 8
      ensures BE64(n)[i] == BE64(m)[i]
    {
      var a, b := BE64(n)[i], BE64(m)[i];
      assert RecordNonce(iv, n)[4 + i] == Xor(iv[4 + i], a) && RecordNonce(iv, m)[4 + i] == Xor(iv[4 + i], b);
      XorInjectiveRight(iv[4 + i], a, b);
    }
    BE64Injective(n, m);
  }

  lemma XorInjectiveRight(k: byte, a: byte, b: byte)
    requires Xor(k, a) == Xor(k, b)
    ensures a == b
  {
    XorCommutes(k, a);
    XorCommutes(k, b);
    XorInjective(a, b, k);
  }

  lemma XorCommutes8(x: bv8, y: bv8)
    ensures x ^ y == y ^ x
  {
  }

  lemma XorCommutes(a: byte, b: byte)
    ensures Xor(a, b) == Xor(b, a)
  {
    XorCommutes8(a as bv8, b as bv8);
  }

  // RFC 8446 section 5.3: the sequence number in network byte order is folded into the last eight
  // bytes of the IV, the first four stay.
  lemma RecordNonceReads(iv: Nonce, n: Seq)
    ensures var nonce := RecordNonce(iv, n);
      var folded := seq(8, i requires 0 <= i < 8 => Xor(nonce[4 + i], iv[4 + i]));
      && nonce[..4] == iv[..4]
      && FromBE32(folded[..4]) as int * 0x1_0000_0000 + FromBE32(folded[4..]) == n
  {
    var nonce, number := RecordNonce(iv, n), BE64(n);
    var folded := seq(8, i requires 0 <= i < 8 => Xor(nonce[4 + i], iv[4 + i]));
    forall i | 0 <= i < 8
      ensures folded[i] == number[i]
    {
      assert nonce[4 + i] == Xor(iv[4 + i], number[i]);
      XorCommutes(iv[4 + i], number[i]);
      XorCancels(number[i], iv[4 + i]);
    }
    assert folded == number;
    assert number[..4] == BE32(n / 0x1_0000_0000) + [] && number[4..] == BE32(n % 0x1_0000_0000) + [];
    BE32RoundTrip(n / 0x1_0000_0000, []);
    BE32RoundTrip(n % 0x1_0000_0000, []);
  }

  // ---- Sealing and opening one record ----

  function RecordHeader(contentLen: nat): (h: seq<byte>)
    ensures |h| == HEADER_LEN
  {
    var n := contentLen + TAG_SIZE;
    [APPLICATION_DATA, 0x03, 0x03, n / 256 % 256, n % 256]
  }

  function SealRecord(c: Cipher, key: Key, iv: Nonce, n: Seq, inner: seq<byte>): seq<byte>
  {
    RecordHeader(|inner|) + c.seal(key, RecordNonce(iv, n), RecordHeader(|inner|), inner)
  }

  function OpenRecord(c: Cipher, key: Key, iv: Nonce, n: Seq, record: seq<byte>): Option<seq<byte>>
  {
    if |record| < HEADER_LEN + TAG_SIZE then None
    else c.open(key, RecordNonce(iv, n), record[..HEADER_LEN], record[HEADER_LEN..])
  }

  // A record on the wire (RFC 8446 section 5.2): application data, the legacy version, the length of
  // the rest; the rest opens to the inner plaintext with these five bytes bound to it.
  lemma RecordReads(c: Cipher, key: Key, iv: Nonce, n: Seq, inner: seq<byte>)
    requires Correct(c) && |inner| + 16 <= 0xFFFF
    ensures var r := SealRecord(c, key, iv, n, inner);
      && |r| == 21 + |inner| && r[..3] == [0x17, 0x03, 0x03]
      && r[3] as int * 256 + r[4] == |inner| + 16
      && c.open(key, RecordNonce(iv, n), r[..5], r[5..]) == Some(inner)
  {
    var header := RecordHeader(|inner|);
    SealOpens(c, key, RecordNonce(iv, n), header, inner);
    var r := SealRecord(c, key, iv, n, inner);
    assert r[..5] == header && r[5..] == c.seal(key, RecordNonce(iv, n), header, inner);
    assert r[3] == header[3] && r[4] == header[4];
  }

  class Encrypter {
    const key: Key
    const iv: Nonce
    var seqNo: nat

    constructor (key: Key, iv: Nonce)
      ensures this.key == key && this.iv == iv && seqNo == 0
    {
      this.key, this.iv, seqNo := key, iv, 0;
    }

    // Encrypts `payload[5..5 + contentLen]` where it lies; `None` if the buffer is too small.
    method EncryptInPlace(c: Cipher, payload: array<byte>, contentLen: nat) returns (n: Option<nat>)
      requires Correct(c) && seqNo < SEQ_LIMIT
      modifies this, payload
      ensures n.Some? <==> payload.Length >= HEADER_LEN + contentLen + TAG_SIZE
      ensures n.Some? ==>
        && n.value == HEADER_LEN + contentLen + TAG_SIZE && seqNo == old(seqNo) + 1
        && payload[..n.value] == SealRecord(c, key, iv, old(seqNo), old(payload[HEADER_LEN..HEADER_LEN + contentLen]))
        && payload[n.value..] == old(payload[n.value..])
      ensures n == None ==> seqNo == old(seqNo) && payload[..] == old(payload[..])
    {
      var recordPayloadLen := contentLen + TAG_SIZE;
      if payload.Length < HEADER_LEN + recordPayloadLen {
        return None;
      }
      ghost var inner := payload[HEADER_LEN..HEADER_LEN + contentLen];
      payload[0] := APPLICATION_DATA;
      payload[1] := 0x03;
      payload[2] := 0x03;
      payload[3] := recordPayloadLen / 256 % 256;
      payload[4] := recordPayloadLen % 256;
      var header := payload[..HEADER_LEN];
      assert header == RecordHeader(contentLen);
      var nonce: seq<byte> := iv;
      var seqBytes := BE64(seqNo);
      for i := 0 to 8
        invariant |nonce| == 12 && nonce[..4] == iv[..4] && nonce[4 + i..] == iv[4 + i..]
        invariant forall j :: 0 <= j < i ==> nonce[4 + j] == Xor(iv[4 + j], seqBytes[j])
      {
        assert nonce[4 + i] == iv[4 + i];
        nonce := nonce[4 + i := Xor(nonce[4 + i], seqBytes[i])];
      }
      assert nonce == RecordNonce(iv, seqNo);
      assert payload[HEADER_LEN..HEADER_LEN + contentLen] == inner;
      SealOpens(c, key, nonce, header, inner);
      var sealed := c.seal(key, nonce, header, payload[HEADER_LEN..HEADER_LEN + contentLen]);
      forall i | 0 <= i < |sealed| {
        payload[HEADER_LEN + i] := sealed[i];
      }
      seqNo := seqNo + 1;
      assert payload[..HEADER_LEN + recordPayloadLen] == header + sealed;
      n := Some(HEADER_LEN + recordPayloadLen);
    }
  }

  class Decrypter {
    const key: Key
    const iv: Nonce
    var seqNo: nat

    constructor (key: Key, iv: Nonce)
      ensures this.key == key && this.iv == iv && seqNo == 0
    {
      this.key, this.iv, seqNo := key, iv, 0;
    }

    // On success the plaintext starts at offset 5 of the buffer.
    method DecryptInPlace(c: Cipher, record: array<byte>) returns (n: Option<nat>)
      requires seqNo < SEQ_LIMIT
      requires forall k: Key, nonce: Nonce, aad: seq<byte>, ct: seq<byte> ::
        c.open(k, nonce, aad, ct).Some? ==> |c.open(k, nonce, aad, ct).value| <= |ct|
      modifies this, record
      ensures var spec := OpenRecord(c, key, iv, old(seqNo), old(record[..]));
        match n
        case None => spec == None && seqNo == old(seqNo)
        case Some(len) => HEADER_LEN + len <= record.Length && seqNo == old(seqNo) + 1
                          && spec == Some(record[HEADER_LEN..HEADER_LEN + len])
    {
      if record.Length < HEADER_LEN + TAG_SIZE {
        return None;
      }
      var plain := c.open(key, RecordNonce(iv, seqNo), record[..HEADER_LEN], record[HEADER_LEN..]);
      assert record[..][..HEADER_LEN] == record[..HEADER_LEN] && record[..][HEADER_LEN..] == record[HEADER_LEN..];
      if plain == None {
        return None;
      }
      forall i | 0 <= i < |plain.value| {
        record[HEADER_LEN + i] := plain.value[i];
      }
      seqNo := seqNo + 1;
      assert record[HEADER_LEN..HEADER_LEN + |plain.value|] == plain.value;
      n := Some(|plain.value|);
    }
  }

  // A sealed record opens at its own sequence number and at no other.
  lemma RecordOpensExactly(c: Cipher, key: Key, iv: Nonce, n: Seq, m: Seq, inner: seq<byte>)
    requires Ideal(c)
    ensures |SealRecord(c, key, iv, n, inner)| == HEADER_LEN + |inner| + TAG_SIZE
    ensures SealRecord(c, key, iv, n, inner)[..HEADER_LEN] == RecordHeader(|inner|)
    ensures OpenRecord(c, key, iv, m, SealRecord(c, key, iv, n, inner)) == if n == m then Some(inner) else None
  {
    var record := SealRecord(c, key, iv, n, inner);
    SealOpens(c, key, RecordNonce(iv, n), RecordHeader(|inner|), inner);
    assert record[..HEADER_LEN] == RecordHeader(|inner|);
    assert record[HEADER_LEN..] == c.seal(key, RecordNonce(iv, n), RecordHeader(|inner|), inner);
    if n != m {
      if RecordNonce(iv, n) == RecordNonce(iv, m) {
        NoncesDiffer(iv, n, m);
      }
      OtherNonceFails(c, key, RecordNonce(iv, n), RecordNonce(iv, m), RecordHeader(|inner|), inner);
    }
  }

  // ---- Inner plaintext: content, type, zero padding ----

  datatype Message = Message(content: seq<byte>, ctype: byte, padding: nat)

  function Inner(m: Message): seq<byte>
  {
    m.content + [m.ctype] + Zeros(m.padding)
  }

  // The last non-zero byte is the type, everything before it the content; without one there is no type.
  ghost predicate IsStripped(plain: seq<byte>, actualLen: nat, trueType: byte)
  {
    if forall i :: 0 <= i < |plain| ==> plain[i] == 0 then actualLen == 0 && trueType == 0
    else
      && actualLen < |plain| && plain[actualLen] == trueType != 0
      && forall i :: actualLen < i < |plain| ==> plain[i] == 0
  }

  // The backward scan over the decrypted buffer.
  method StripContentType(plain: seq<byte>) returns (actualLen: nat, trueType: byte)
    ensures IsStripped(plain, actualLen, trueType)
  {
    actualLen, trueType := |plain|, 0;
    while actualLen > 0
      invariant actualLen <= |plain|
      invariant forall i :: actualLen <= i < |plain| ==> plain[i] == 0
    {
      actualLen := actualLen - 1;
      var b := plain[actualLen];
      if b != 0 {
        trueType := b;
        break;
      }
    }
  }

  // Content ending in zeros is not eaten: a non-zero type fences it off from the padding.
  lemma StripRecoversMessage(m: Message, actualLen: nat, trueType: byte)
    requires m.ctype != 0 && IsStripped(Inner(m), actualLen, trueType)
    ensures trueType == m.ctype && Inner(m)[..actualLen] == m.content
  {
    var plain := Inner(m);
    assert plain[|m.content|] == m.ctype;
    assert forall i :: |m.content| < i < |plain| ==> plain[i] == 0;
    assert actualLen == |m.content|;
  }

  ghost function Stripped(plain: seq<byte>): (r: (nat, byte))
    ensures IsStripped(plain, r.0, r.1)
  {
    StrippedExists(plain);
    var n: nat, t: byte :| IsStripped(plain, n, t);
    (n, t)
  }

  lemma {:induction false} StrippedExists(plain: seq<byte>)
    ensures exists n: nat, t: byte :: IsStripped(plain, n, t)
  {
    if plain == [] {
      assert IsStripped(plain, 0, 0);
    } else if plain[|plain| - 1] != 0 {
      assert IsStripped(plain, |plain| - 1, plain[|plain| - 1]);
    } else {
      var init := plain[..|plain| - 1];
      StrippedExists(init);
      var n: nat, t: byte :| IsStripped(init, n, t);
      assert IsStripped(plain, n, t) by {
        assert forall i :: 0 <= i < |init| ==> plain[i] == init[i];
      }
    }
  }

  // ---- The receiving relay ----

  // Long enough for the version byte, the count and as many bytes as it says.
  predicate HoldsHeader(payload: seq<byte>)
  {
    |payload| >= 2 && |payload| >= 2 + payload[1] as int
  }

  function CutHeader(payload: seq<byte>): seq<byte>
    requires HoldsHeader(payload)
  {
    payload[2 + payload[1] as int..]
  }

  // The reply starts with a version byte and a counted addon. Until a payload long enough to hold both
  // has come, payloads go through whole; from the first such payload they are cut off, and only there.
  function ClientPayload(payload: seq<byte>, skipped: bool): (r: (seq<byte>, bool))
  {
    if !skipped && HoldsHeader(payload) then (CutHeader(payload), true)
    else (payload, skipped)
  }

  // The first record of the stream opened, and what follows it. There is none at the end of the stream,
  // and for an oversized or unopenable record.
  ghost function FirstRecord(c: Cipher, key: Key, iv: Nonce, n: nat, stream: seq<byte>)
    : (r: Option<(seq<byte>, seq<byte>)>)
    ensures r.Some? ==> |r.value.1| < |stream|
  {
    if n >= SEQ_LIMIT || |stream| < HEADER_LEN then None
    else
      var end := HEADER_LEN + FromBE16(stream[3..5]);
      if end - HEADER_LEN > MAX_RECORD || |stream| < end then None
      else
        match OpenRecord(c, key, iv, n, stream[..end])
        case None => None
        case Some(plain) => Some((plain, stream[end..]))
  }

  // The bytes forwarded to the client from a stream of records. The loop ends where no record can be
  // read, and at an alert; other types are skipped.
  ghost function Forwarded(c: Cipher, key: Key, iv: Nonce, n: nat, skipped: bool, stream: seq<byte>): seq<byte>
    decreases |stream|
  {
    match FirstRecord(c, key, iv, n, stream)
    case None => []
    case Some((plain, rest)) =>
      var (len, t) := Stripped(plain);
      if t == ALERT then []
      else if t == APPLICATION_DATA then
        var (payload, skipped') := ClientPayload(plain[..len], skipped);
        payload + Forwarded(c, key, iv, n + 1, skipped', rest)
      else Forwarded(c, key, iv, n + 1, skipped, rest)
  }

  predicate Fits(m: Message) { m.ctype != 0 && |m.content| + 1 + m.padding + 16 <= 18000 }

  function SealAll(c: Cipher, key: Key, iv: Nonce, n: nat, ms: seq<Message>): seq<byte>
    requires n + |ms| <= SEQ_LIMIT
    decreases |ms|
  {
    if ms == [] then [] else SealRecord(c, key, iv, n, Inner(ms[0])) + SealAll(c, key, iv, n + 1, ms[1..])
  }

  predicate SkippedAfter(m: Message, skipped: bool)
  {
    if m.ctype == APPLICATION_DATA then ClientPayload(m.content, skipped).1 else skipped
  }

  // What the messages say to the client, without any cryptography or framing.
  function Spoken(ms: seq<Message>, skipped: bool): seq<byte>
  {
    if ms == [] || ms[0].ctype == ALERT then []
    else if ms[0].ctype == APPLICATION_DATA then
      var (payload, skipped') := ClientPayload(ms[0].content, skipped);
      payload + Spoken(ms[1..], skipped')
    else Spoken(ms[1..], skipped)
  }

  lemma RecordLength(inner: seq<byte>, record: seq<byte>, rest: seq<byte>)
    requires |inner| + TAG_SIZE <= 0xFFFF && |record| == HEADER_LEN + |inner| + TAG_SIZE
    requires record[..HEADER_LEN] == RecordHeader(|inner|)
    ensures FromBE16((record + rest)[3..5]) == |inner| + TAG_SIZE
    ensures (record + rest)[..|record|] == record && (record + rest)[|record|..] == rest
  {
    assert record[3] == RecordHeader(|inner|)[3] && record[4] == RecordHeader(|inner|)[4];
  }

  lemma FirstRecordReads(c: Cipher, key: Key, iv: Nonce, n: Seq, inner: seq<byte>, rest: seq<byte>)
    requires Ideal(c) && |inner| + TAG_SIZE <= MAX_RECORD
    ensures FirstRecord(c, key, iv, n, SealRecord(c, key, iv, n, inner) + rest) == Some((inner, rest))
  {
    RecordOpensExactly(c, key, iv, n, n, inner);
    RecordLength(inner, SealRecord(c, key, iv, n, inner), rest);
  }

  // One record in front of the stream, opened in its turn.
  lemma ForwardsFirst(c: Cipher, key: Key, iv: Nonce, n: Seq, skipped: bool, m: Message, rest: seq<byte>)
    requires Ideal(c) && Fits(m)
    ensures Forwarded(c, key, iv, n, skipped, SealRecord(c, key, iv, n, Inner(m)) + rest)
         == if m.ctype == ALERT then []
            else if m.ctype == APPLICATION_DATA then
              ClientPayload(m.content, skipped).0 + Forwarded(c, key, iv, n + 1, SkippedAfter(m, skipped), rest)
            else Forwarded(c, key, iv, n + 1, skipped, rest)
  {
    FirstRecordReads(c, key, iv, n, Inner(m), rest);
    var (len, t) := Stripped(Inner(m));
    StripRecoversMessage(m, len, t);
  }

  predicate AllFit(ms: seq<Message>)
  {
    ms == [] || (Fits(ms[0]) && AllFit(ms[1..]))
  }

  lemma SaysFirst(c: Cipher, key: Key, iv: Nonce, n: nat, skipped: bool, ms: seq<Message>)
    requires Ideal(c) && n + |ms| <= SEQ_LIMIT && ms != [] && AllFit(ms)
    requires var rest := SealAll(c, key, iv, n + 1, ms[1..]);
      Forwarded(c, key, iv, n + 1, SkippedAfter(ms[0], skipped), rest) == Spoken(ms[1..], SkippedAfter(ms[0], skipped))
    ensures Forwarded(c, key, iv, n, skipped, SealAll(c, key, iv, n, ms)) == Spoken(ms, skipped)
  {
    var rest := SealAll(c, key, iv, n + 1, ms[1..]);
    ForwardsFirst(c, key, iv, n, skipped, ms[0], rest);
    assert SealAll(c, key, iv, n, ms) == SealRecord(c, key, iv, n, Inner(ms[0])) + rest;
  }

  lemma NothingSaid(c: Cipher, key: Key, iv: Nonce, n: nat, skipped: bool)
    requires n <= SEQ_LIMIT
    ensures Forwarded(c, key, iv, n, skipped, SealAll(c, key, iv, n, [])) == Spoken([], skipped)
  {
  }

  // Whatever the padding and whatever bytes the contents end in: the client gets what the messages
  // say, in order; other types in between disappear and nothing after an alert is said.
  lemma {:induction false} StreamRoundTrip(c: Cipher, key: Key, iv: Nonce, n: nat, skipped: bool, ms: seq<Message>)
    requires Ideal(c) && n + |ms| <= SEQ_LIMIT && AllFit(ms)
    ensures Forwarded(c, key, iv, n, skipped, SealAll(c, key, iv, n, ms)) == Spoken(ms, skipped)
    decreases |ms|
  {
    if ms == [] {
      NothingSaid(c, key, iv, n, skipped);
    } else {
      var rest := ms[1..];
      StreamRoundTrip(c, key, iv, n + 1, SkippedAfter(ms[0], skipped), rest);
      SaysFirst(c, key, iv, n, skipped, ms);
    }
  }

  function Contents(ms: seq<Message>): seq<seq<byte>>
  {
    seq(|ms|, i requires 0 <= i < |ms| => ms[i].content)
  }

  predicate AllApplicationData(ms: seq<Message>)
  {
    forall i :: 0 <= i < |ms| ==> ms[i].ctype == APPLICATION_DATA
  }

  lemma {:induction false} SkippedSpeaksAll(ms: seq<Message>)
    requires AllApplicationData(ms)
    ensures Spoken(ms, true) == Concat(Contents(ms))
  {
    if ms != [] {
      assert Contents(ms)[1..] == Contents(ms[1..]);
      SkippedSpeaksAll(ms[1..]);
    }
  }

  // The payloads with the header cut off the first of them that holds one.
  function CutOnce(payloads: seq<seq<byte>>): seq<byte>
  {
    if payloads == [] then []
    else if HoldsHeader(payloads[0]) then CutHeader(payloads[0]) + Concat(payloads[1..])
    else payloads[0] + CutOnce(payloads[1..])
  }

  // The first payload that holds a header is cut, all others go through whole.
  lemma {:induction false} HeaderIsCutOnce(ms: seq<Message>)
    requires AllApplicationData(ms)
    ensures Spoken(ms, false) == CutOnce(Contents(ms))
  {
    if ms != [] {
      assert Contents(ms)[1..] == Contents(ms[1..]);
      if HoldsHeader(ms[0].content) {
        SkippedSpeaksAll(ms[1..]);
      } else {
        HeaderIsCutOnce(ms[1..]);
      }
    }
  }

  // The messages in front of the first alert.
  function BeforeAlert(ms: seq<Message>): seq<Message>
  {
    if ms == [] || ms[0].ctype == 0x15 then [] else [ms[0]] + BeforeAlert(ms[1..])
  }

  // The contents of the application data among them.
  function AppContents(ms: seq<Message>): seq<seq<byte>>
  {
    if ms == [] then []
    else if ms[0].ctype == 0x17 then [ms[0].content] + AppContents(ms[1..])
    else AppContents(ms[1..])
  }

  // What is said is the application data in front of the first alert, whatever comes in between, with
  // at most the reply's header cut out.
  lemma {:induction false} SpokenMeans(ms: seq<Message>)
    ensures Spoken(ms, true) == Concat(AppContents(BeforeAlert(ms)))
    ensures Spoken(ms, false) == CutOnce(AppContents(BeforeAlert(ms)))
  {
    if ms != [] && ms[0].ctype != 0x15 {
      SpokenMeans(ms[1..]);
      assert BeforeAlert(ms)[1..] == BeforeAlert(ms[1..]);
      if ms[0].ctype == 0x17 {
        assert AppContents(BeforeAlert(ms))[1..] == AppContents(BeforeAlert(ms[1..]));
      }
    }
  }

  // A record that claims more than 18000 bytes ends the stream, whatever it holds.
  lemma OversizedEndsStream(c: Cipher, key: Key, iv: Nonce, n: nat, skipped: bool, stream: seq<byte>)
    requires |stream| >= 5 && stream[3] as int * 256 + stream[4] > 18000
    ensures Forwarded(c, key, iv, n, skipped, stream) == []
  {
  }

  // The first payload with anything in it.
  function Opener(payloads: seq<seq<byte>>): seq<byte>
  {
    if payloads == [] then [] else if payloads[0] != [] then payloads[0] else Opener(payloads[1..])
  }

  // Where in the concatenated payloads something is cut out, and how many bytes.
  function Cut(payloads: seq<seq<byte>>): Option<(nat, nat)>
  {
    if payloads == [] then None
    else if HoldsHeader(payloads[0]) then Some((0, 2 + payloads[0][1] as int))
    else
      match Cut(payloads[1..])
      case None => None
      case Some((at, len)) => Some((|payloads[0]| + at, len))
  }

  // The bytes without the piece that is cut out.
  function Without(whole: seq<byte>, at: nat, len: nat): seq<byte>
    requires at + len <= |whole|
  {
    whole[..at] + whole[at + len..]
  }

  lemma WithoutBehind(first: seq<byte>, rest: seq<byte>, at: nat, len: nat)
    requires at + len <= |rest|
    ensures Without(first + rest, |first| + at, len) == first + Without(rest, at, len)
  {
    assert (first + rest)[..|first| + at] == first + rest[..at];
    assert (first + rest)[|first| + at + len..] == rest[at + len..];
  }

  lemma WithoutFront(first: seq<byte>, rest: seq<byte>, len: nat)
    requires len <= |first|
    ensures Without(first + rest, 0, len) == first[len..] + rest
  {
  }

  // At most one piece is cut out of the payloads, and nothing else is lost or changed.
  lemma {:induction false} CutIsOnePiece(payloads: seq<seq<byte>>)
    ensures match Cut(payloads)
      case None => CutOnce(payloads) == Concat(payloads)
      case Some((at, len)) =>
        at + len <= |Concat(payloads)| && CutOnce(payloads) == Without(Concat(payloads), at, len)
  {
    if payloads != [] {
      var first, rest := payloads[0], Concat(payloads[1..]);
      if HoldsHeader(first) {
        WithoutFront(first, rest, 2 + first[1] as int);
      } else {
        CutIsOnePiece(payloads[1..]);
        if Cut(payloads[1..]).Some? {
          WithoutBehind(first, rest, Cut(payloads[1..]).value.0, Cut(payloads[1..]).value.1);
        }
      }
    }
  }

  // How the first payload relates to a header in front of everything.
  lemma FirstMeetsHeader(p: seq<byte>, rest: seq<byte>, head: seq<byte>)
    requires |head| >= 2 && |head| == 2 + head[1] as int && head <= p + rest && p != []
    ensures head <= p <==> |p| >= |head|
    ensures head <= p ==> HoldsHeader(p) && 2 + p[1] as int == |head| && CutHeader(p) + rest == (p + rest)[|head|..]
    ensures |p| < |head| ==> !HoldsHeader(p) && p < head
  {
    if |p| >= |head| {
      assert p[..|head|] == (p + rest)[..|head|] == head;
    } else {
      assert (p + rest)[..|p|] == p == head[..|p|];
    }
  }

  lemma {:induction false} HeaderIsCutFromPayloads(ps: seq<seq<byte>>, head: seq<byte>)
    requires |head| >= 2 && |head| == 2 + head[1] as int && head <= Concat(ps)
    ensures Cut(ps) == Some((0, |head|)) <==> head <= Opener(ps)
    ensures if head <= Opener(ps) then CutOnce(ps) == Concat(ps)[|head|..]
            else Opener(ps) != [] && Opener(ps) < head && Opener(ps) <= CutOnce(ps)
  {
    if ps[0] == [] {
      assert Concat(ps) == Concat(ps[1..]);
      HeaderIsCutFromPayloads(ps[1..], head);
    } else {
      FirstMeetsHeader(ps[0], Concat(ps[1..]), head);
    }
  }

  // With `head` in front of the reply, exactly those bytes are cut out if and only if the first
  // non-empty payload holds all of them. If it does not, it reaches the client as it is.
  lemma HeaderIsCutExactly(ms: seq<Message>, head: seq<byte>)
    requires AllApplicationData(ms) && |head| >= 2 && |head| == 2 + head[1] as int && head <= Concat(Contents(ms))
    ensures var ps := Contents(ms); Cut(ps) == Some((0, |head|)) <==> head <= Opener(ps)
    ensures var opener := Opener(Contents(ms));
      if head <= opener then Spoken(ms, false) == Concat(Contents(ms))[|head|..]
      else opener != [] && opener < head && opener <= Spoken(ms, false)
  {
    HeaderIsCutOnce(ms);
    HeaderIsCutFromPayloads(Contents(ms), head);
  }

  lemma PiecesAgree(whole: seq<byte>, h: nat, at: nat, len: nat)
    requires h <= |whole| && at + len <= |whole|
    ensures Without(whole, at, len) == whole[h..] <==>
      len == h && h + at <= |whole| && whole[..at] == whole[h..h + at]
  {
    var out, reply := Without(whole, at, len), whole[h..];
    if out == reply {
      assert |out| == |reply|;
      assert out[..at] == reply[..at] == whole[h..h + at];
    }
    if len == h && whole[..at] == whole[h..h + at] {
      assert reply == whole[h..h + at] + whole[h + at..];
    }
  }

  // The client reads exactly the reply behind `head` if and only if as many bytes were cut out as the
  // header has, and those in front of the cut happen to be the ones the reply starts with. Nothing is
  // in front of it when the header came in one piece.
  lemma ReplyIsIntactExactly(ms: seq<Message>, head: seq<byte>)
    requires AllApplicationData(ms) && head != [] && head <= Concat(Contents(ms))
    ensures var ps := Contents(ms); var whole := Concat(ps);
      Spoken(ms, false) == whole[|head|..] <==>
        match Cut(ps)
        case None => false
        case Some((at, len)) =>
          len == |head| && |head| + at <= |whole| && whole[..at] == whole[|head|..|head| + at]
  {
    var ps := Contents(ms);
    HeaderIsCutOnce(ms);
    CutIsOnePiece(ps);
    match Cut(ps)
    case None =>
    case Some((at, len)) => PiecesAgree(Concat(ps), |head|, at, len);
  }

  function TwoPayloads(first: seq<byte>, second: seq<byte>): seq<Message>
  {
    [Message(first, APPLICATION_DATA, 0), Message(second, APPLICATION_DATA, 0)]
  }

  lemma TwoContents(first: seq<byte>, second: seq<byte>)
    ensures Contents(TwoPayloads(first, second)) == [first, second]
    ensures Concat([first, second]) == first + second
  {
    assert [first, second][1..] == [second] && [second][1..] == [];
    assert Concat([second]) == second + Concat<byte>([]) == second;
  }

  // A header of two bytes split over two records in front of the reply [7]: the client gets the
  // header as well.
  lemma SplitHeaderReachesClient()
    ensures var ms := TwoPayloads([0], [0, 7]);
      && [0, 0] <= Concat(Contents(ms)) && Concat(Contents(ms))[2..] == [7]
      && Spoken(ms, false) == [0, 0, 7]
  {
    TwoContents([0], [0, 7]);
    HeaderIsCutOnce(TwoPayloads([0], [0, 7]));
    CutIsOnePiece([[0], [0, 7]]);
    assert [[0], [0, 7]][1..] == [[0, 7]];
    assert Cut([[0, 7]]) == None;
  }

  // The same split in front of [0, 7]: other bytes are cut out, which here makes no difference.
  lemma SplitHeaderCanGoUnnoticed()
    ensures var ms := TwoPayloads([0], [0, 0, 7]);
      && Contents(ms) == [[0], [0, 0, 7]] && Opener(Contents(ms)) == [0]
      && Cut(Contents(ms)) == Some((1, 2)) && Spoken(ms, false) == Concat(Contents(ms))[2..]
  {
    TwoContents([0], [0, 0, 7]);
    assert [[0], [0, 0, 7]][1..] == [[0, 0, 7]];
    assert Cut([[0, 0, 7]]) == Some((0, 2));
    var whole := Concat([[0], [0, 0, 7]]);
    assert whole == [0, 0, 0, 7];
    assert whole[..1] == whole[2..3] && [0, 0] == whole[..2];
    ReplyIsIntactExactly(TwoPayloads([0], [0, 0, 7]), [0, 0]);
  }

  // A record out of its turn ends the stream: nothing of it or after it is forwarded.
  lemma OutOfTurnRecordEndsStream(c: Cipher, key: Key, iv: Nonce, n: Seq, m: Seq, skipped: bool, inner: seq<byte>,
                                  rest: seq<byte>)
    requires Ideal(c) && n != m && |inner| + TAG_SIZE <= MAX_RECORD
    ensures Forwarded(c, key, iv, m, skipped, SealRecord(c, key, iv, n, inner) + rest) == []
  {
    RecordOpensExactly(c, key, iv, n, m, inner);
    RecordLength(inner, SealRecord(c, key, iv, n, inner), rest);
  }

  // ---- The sending relay ----

  const READ_MAX: nat := 16384

  function Uploaded(pieces: seq<seq<byte>>): seq<Message>
  {
    seq(|pieces|, i requires 0 <= i < |pieces| => Message(pieces[i], APPLICATION_DATA, 0))
  }

  predicate GoodReads(pieces: seq<seq<byte>>)
  {
    forall i :: 0 <= i < |pieces| ==> 0 < |pieces[i]| <= READ_MAX
  }

  lemma {:induction false} SealAllSnoc(c: Cipher, key: Key, iv: Nonce, n: nat, ms: seq<Message>, m: Message)
    requires n + |ms| < SEQ_LIMIT
    ensures SealAll(c, key, iv, n, ms + [m]) == SealAll(c, key, iv, n, ms) + SealRecord(c, key, iv, n + |ms|, Inner(m))
    decreases |ms|
  {
    if ms == [] {
      assert ms + [m] == [m];
      assert SealAll(c, key, iv, n + 1, [m][1..]) == [];
    } else {
      assert (ms + [m])[1..] == ms[1..] + [m];
      SealAllSnoc(c, key, iv, n + 1, ms[1..], m);
    }
  }

  // One turn of the loop: the read bytes behind the header's place, their type, and the seal.
  method UploadOne(c: Cipher, enc: Encrypter, buf: array<byte>, piece: seq<byte>) returns (record: seq<byte>)
    requires Correct(c) && enc.seqNo < SEQ_LIMIT
    requires buf.Length == READ_MAX + HEADER_LEN + TAG_SIZE + 1 && 0 < |piece| <= READ_MAX
    modifies enc, buf
    ensures record == SealRecord(c, enc.key, enc.iv, old(enc.seqNo), Inner(Message(piece, APPLICATION_DATA, 0)))
    ensures enc.seqNo == old(enc.seqNo) + 1
  {
    var n := |piece|;
    forall i | 0 <= i < n {
      buf[HEADER_LEN + i] := piece[i];
    }
    buf[HEADER_LEN + n] := APPLICATION_DATA;
    assert buf[HEADER_LEN..HEADER_LEN + n + 1] == Inner(Message(piece, APPLICATION_DATA, 0));
    var len := enc.EncryptInPlace(c, buf, n + 1);
    record := buf[..len.value];
  }

  lemma UploadGrows(c: Cipher, key: Key, iv: Nonce, n: nat, pieces: seq<seq<byte>>, i: nat)
    requires i < |pieces| && n + |pieces| <= SEQ_LIMIT
    ensures SealAll(c, key, iv, n, Uploaded(pieces[..i + 1])) ==
      SealAll(c, key, iv, n, Uploaded(pieces[..i]))
      + SealRecord(c, key, iv, n + i, Inner(Message(pieces[i], APPLICATION_DATA, 0)))
  {
    var m := Message(pieces[i], APPLICATION_DATA, 0);
    assert Uploaded(pieces[..i + 1]) == Uploaded(pieces[..i]) + [m];
    SealAllSnoc(c, key, iv, n, Uploaded(pieces[..i]), m);
  }

  // `pieces` is what reading the client yields before its end.
  method Upload(c: Cipher, enc: Encrypter, pieces: seq<seq<byte>>) returns (wire: seq<byte>)
    requires Correct(c) && enc.seqNo + |pieces| <= SEQ_LIMIT && GoodReads(pieces)
    modifies enc
    ensures wire == SealAll(c, enc.key, enc.iv, old(enc.seqNo), Uploaded(pieces))
    ensures enc.seqNo == old(enc.seqNo) + |pieces|
  {
    var buf := new byte[READ_MAX + HEADER_LEN + TAG_SIZE + 1];
    wire := [];
    for i := 0 to |pieces|
      invariant enc.seqNo == old(enc.seqNo) + i
      invariant wire == SealAll(c, enc.key, enc.iv, old(enc.seqNo), Uploaded(pieces[..i]))
    {
      var record := UploadOne(c, enc, buf, pieces[i]);
      UploadGrows(c, enc.key, enc.iv, old(enc.seqNo), pieces, i);
      wire := wire + record;
    }
    assert pieces[..|pieces|] == pieces;
  }

  lemma {:induction false} UploadsFit(pieces: seq<seq<byte>>)
    requires GoodReads(pieces)
    ensures AllFit(Uploaded(pieces))
  {
    if pieces != [] {
      assert Uploaded(pieces)[0].content == pieces[0];
      assert Uploaded(pieces)[1..] == Uploaded(pieces[1..]);
      UploadsFit(pieces[1..]);
    }
  }

  // A peer that opens the records in order hears exactly the bytes that were read, in order.
  lemma UploadIsHeard(c: Cipher, key: Key, iv: Nonce, n: nat, pieces: seq<seq<byte>>)
    requires Ideal(c) && n + |pieces| <= SEQ_LIMIT && GoodReads(pieces)
    ensures Forwarded(c, key, iv, n, true, SealAll(c, key, iv, n, Uploaded(pieces))) == Concat(pieces)
  {
    var ms := Uploaded(pieces);
    UploadsFit(pieces);
    StreamRoundTrip(c, key, iv, n, true, ms);
    SkippedSpeaksAll(ms);
    assert Contents(ms) == pieces;
  }
}
