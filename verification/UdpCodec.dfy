// The obfuscated UDP datagram: masked header, ciphertext, random padding.
module UdpCodec {
  import opened Bytes
  import opened Aead

  const MAGIC: byte := 0x48
  const VERSION: byte := 0x01
  const ENCRYPT_OVERHEAD: nat := 4 + 2 + TAG_SIZE
  const HEADER_SIZE: nat := 4
  const MAX_UDP_PAYLOAD: nat := 1400
  const PAD_MIN: nat := 16
  const PAD_MAX: nat := 512
  const PT_HEADER: nat := 6
  const DIR_CLIENT_TO_SERVER: u32 := 1
  const DIR_SERVER_TO_CLIENT: u32 := 2

  type XorKey = k: seq<byte> | |k| == 4 witness [0, 0, 0, 0]

  datatype CodecError =
    | PayloadExceedsU16 | PayloadTooLarge | CiphertextOverflows
    | DatagramTooShort | BadMagic | UnsupportedVersion | CiphertextTooSmall | DatagramTruncated
    | AuthenticationFailed | PlaintextTooShort | PayloadOutOfBounds

  datatype Decoded = Decoded(packetId: u32, payload: seq<byte>)

  function XorAll(a: seq<byte>, k: seq<byte>): (r: seq<byte>)
    requires |a| <= |k|
    ensures |r| == |a|
  {
    seq(|a|, i requires 0 <= i < |a| => Xor(a[i], k[i]))
  }

  lemma XorAllCancels(a: seq<byte>, k: seq<byte>)
    requires |a| <= |k|
    ensures XorAll(XorAll(a, k), k) == a
  {
    forall i | 0 <= i < |a|
      ensures XorAll(XorAll(a, k), k)[i] == a[i]
    {
      XorCancels(a[i], k[i]);
    }
  }

  function MakeNonce(id: u32, direction: u32, key: Key): Nonce
  {
    BE32(id) + BE32(direction) + key[..4]
  }

  lemma NonceDeterminesId(id: u32, other: u32, direction: u32, key: Key)
    requires MakeNonce(id, direction, key) == MakeNonce(other, direction, key)
    ensures id == other
  {
    assert MakeNonce(id, direction, key)[..4] == BE32(id);
    assert MakeNonce(other, direction, key)[..4] == BE32(other);
    BE32Injective(id, other);
  }

  // Packet id, direction and the first key bytes, four bytes each.
  lemma NonceFields(id: u32, direction: u32, key: Key)
    ensures var n := MakeNonce(id, direction, key);
      && FromBE32(n[..4]) == id && FromBE32(n[4..8]) == direction && n[8..12] == key[..4]
  {
    var n := MakeNonce(id, direction, key);
    assert n[..4] == BE32(id) + [] && n[4..8] == BE32(direction) + [];
    BE32RoundTrip(id, []);
    BE32RoundTrip(direction, []);
  }

  // The client's packets are tagged 1 and the server's 2, so that the two directions never share a
  // nonce, whatever the packet ids.
  lemma DirectionsNeverShareNonces(id: u32, other: u32, key: Key)
    ensures FromBE32(MakeNonce(id, DIR_CLIENT_TO_SERVER, key)[4..8]) == 1
    ensures FromBE32(MakeNonce(other, DIR_SERVER_TO_CLIENT, key)[4..8]) == 2
    ensures MakeNonce(id, DIR_CLIENT_TO_SERVER, key) != MakeNonce(other, DIR_SERVER_TO_CLIENT, key)
  {
    NonceFields(id, DIR_CLIENT_TO_SERVER, key);
    NonceFields(other, DIR_SERVER_TO_CLIENT, key);
  }

  // ---- Encoding ----

  function Plaintext(payload: seq<byte>, id: u32): seq<byte>
    requires |payload| < 0x1_0000
  {
    BE32(id) + BE16(|payload|) + payload
  }

  function MaskedHeader(ctLen: u16, xorKey: XorKey): seq<byte>
  {
    XorAll([MAGIC, VERSION] + BE16(ctLen), xorKey)
  }

  function Ciphertext(c: Cipher, payload: seq<byte>, id: u32, direction: u32, key: Key, xorKey: XorKey): seq<byte>
    requires |payload| <= 862
  {
    c.seal(key, MakeNonce(id, direction, key), MaskedHeader(PT_HEADER + |payload| + TAG_SIZE, xorKey),
           Plaintext(payload, id))
  }

  // The datagram for one draw of padding bytes.
  function Encode(c: Cipher, payload: seq<byte>, id: u32, direction: u32, key: Key, xorKey: XorKey, padding: seq<byte>)
    : Result<seq<byte>, CodecError>
  {
    if |payload| > 0xFFFF then Err(PayloadExceedsU16)
    else if PT_HEADER + |payload| + TAG_SIZE + HEADER_SIZE + PAD_MAX > MAX_UDP_PAYLOAD then Err(PayloadTooLarge)
    else
      Ok(MaskedHeader(PT_HEADER + |payload| + TAG_SIZE, xorKey)
         + Ciphertext(c, payload, id, direction, key, xorKey) + padding)
  }

  lemma EncodesExactlyUpTo862(c: Cipher, payload: seq<byte>, id: u32, direction: u32, key: Key, xorKey: XorKey,
                              padding: seq<byte>)
    requires Correct(c) && PAD_MIN <= |padding| <= PAD_MAX
    ensures Encode(c, payload, id, direction, key, xorKey, padding).Ok? <==> |payload| <= 862
    ensures |payload| > 862 ==>
      Encode(c, payload, id, direction, key, xorKey, padding) ==
        Err(if |payload| > 65535 then PayloadExceedsU16 else PayloadTooLarge)
    ensures |payload| <= 862 ==>
      var d := Encode(c, payload, id, direction, key, xorKey, padding).value;
      |d| == HEADER_SIZE + ENCRYPT_OVERHEAD + |payload| + |padding| <= MAX_UDP_PAYLOAD
  {
    if |payload| <= 862 {
      SealOpens(c, key, MakeNonce(id, direction, key), MaskedHeader(PT_HEADER + |payload| + TAG_SIZE, xorKey),
                Plaintext(payload, id));
    }
  }

  // `encode_packet` fills the caller's buffer; `padding` is what the random generator would supply.
  method EncodePacket(c: Cipher, payload: seq<byte>, id: u32, direction: u32, key: Key, xorKey: XorKey,
                      padding: seq<byte>, outBuf: array<byte>)
    returns (result: Result<nat, CodecError>)
    requires Correct(c) && outBuf.Length == MAX_UDP_PAYLOAD && PAD_MIN <= |padding| <= PAD_MAX
    modifies outBuf
    ensures var spec := Encode(c, payload, id, direction, key, xorKey, padding);
      match result
      case Ok(n) => n <= outBuf.Length && spec == Ok(outBuf[..n]) && outBuf[n..] == old(outBuf[n..])
      case Err(e) => spec == Err(e) && outBuf[..] == old(outBuf[..])
  {
    var payloadLen := |payload|;
    if payloadLen > 0xFFFF {
      return Err(PayloadExceedsU16);
    }
    var ptLen := PT_HEADER + payloadLen;
    if ptLen + TAG_SIZE + HEADER_SIZE + PAD_MAX > MAX_UDP_PAYLOAD {
      return Err(PayloadTooLarge);
    }
    var plaintext := BE32(id) + BE16(payloadLen) + payload;
    var ctLen := ptLen + TAG_SIZE;
    var headerPlain: seq<byte> := [MAGIC, VERSION] + BE16(ctLen);
    var headerMasked: seq<byte> := [];
    for i := 0 to HEADER_SIZE
      invariant headerMasked == XorAll(headerPlain[..i], xorKey)
    {
      headerMasked := headerMasked + [Xor(headerPlain[i], xorKey[i])];
    }
    assert headerPlain[..HEADER_SIZE] == headerPlain;
    var ciphertext := c.seal(key, MakeNonce(id, direction, key), headerMasked, plaintext);
    SealOpens(c, key, MakeNonce(id, direction, key), headerMasked, plaintext);
    // The padding never has to be reduced: the length check above left room for the largest draw.
    assert HEADER_SIZE + ctLen + |padding| <= MAX_UDP_PAYLOAD;
    var total := HEADER_SIZE + ctLen + |padding|;
    var datagram := headerMasked + ciphertext + padding;
    forall i | 0 <= i < total {
      outBuf[i] := datagram[i];
    }
    assert outBuf[..total] == datagram;
    return Ok(total);
  }

  // ---- Decoding ----

  // The framing layer: header checks and the exact ciphertext slice.
  function Unframe(datagram: seq<byte>, xorKey: XorKey): Result<seq<byte>, CodecError>
  {
    if |datagram| < HEADER_SIZE + ENCRYPT_OVERHEAD then Err(DatagramTooShort)
    else
      var h := XorAll(datagram[..HEADER_SIZE], xorKey);
      if h[0] != MAGIC then Err(BadMagic)
      else if h[1] != VERSION then Err(UnsupportedVersion)
      else
        var ctLen := FromBE16(h[2..]);
        if ctLen < ENCRYPT_OVERHEAD then Err(CiphertextTooSmall)
        else if HEADER_SIZE + ctLen > |datagram| then Err(DatagramTruncated)
        else Ok(datagram[HEADER_SIZE..HEADER_SIZE + ctLen])
  }

  // The packet id the decoder guesses from the ciphertext in order to build its nonce.
  function HintId(ct: seq<byte>, key: Key): u32
    requires |ct| >= 4
  {
    FromBE32(XorAll(ct[..4], key[..4]))
  }

  function ParsePlaintext(pt: seq<byte>): Result<Decoded, CodecError>
  {
    if |pt| < PT_HEADER then Err(PlaintextTooShort)
    else
      var id, len := FromBE32(pt), FromBE16(pt[4..]);
      if PT_HEADER + len > |pt| then Err(PayloadOutOfBounds)
      else Ok(Decoded(id, pt[PT_HEADER..PT_HEADER + len]))
  }

  function Decode(c: Cipher, datagram: seq<byte>, direction: u32, key: Key, xorKey: XorKey): Result<Decoded, CodecError>
  {
    match Unframe(datagram, xorKey)
    case Err(e) => Err(e)
    case Ok(ct) =>
      if |ct| < 4 then assert false; Err(CiphertextTooSmall)
      else
        match c.open(key, MakeNonce(HintId(ct, key), direction, key), datagram[..HEADER_SIZE], ct)
        case None => Err(AuthenticationFailed)
        case Some(pt) => ParsePlaintext(pt)
  }

  // The XOR loop over the first bytes of a buffer.
  method Unmask(s: seq<byte>, key: seq<byte>, n: nat) returns (plain: seq<byte>)
    requires n <= |s| && n <= |key|
    ensures plain == XorAll(s[..n], key[..n])
  {
    plain := [];
    for i := 0 to n
      invariant plain == XorAll(s[..i], key[..i])
    {
      plain := plain + [Xor(s[i], key[i])];
    }
  }

  // `decode_packet`; see `Decode` for the order of its checks.
  method DecodePacket(c: Cipher, datagram: seq<byte>, direction: u32, key: Key, xorKey: XorKey)
    returns (result: Result<Decoded, CodecError>)
    ensures result == Decode(c, datagram, direction, key, xorKey)
  {
    if |datagram| < HEADER_SIZE + ENCRYPT_OVERHEAD {
      return Err(DatagramTooShort);
    }
    var h := Unmask(datagram, xorKey, HEADER_SIZE);
    assert h == XorAll(datagram[..HEADER_SIZE], xorKey);
    if h[0] != MAGIC {
      return Err(BadMagic);
    }
    if h[1] != VERSION {
      return Err(UnsupportedVersion);
    }
    var ctLen: int := FromBE16(h[2..]);
    if ctLen < ENCRYPT_OVERHEAD {
      return Err(CiphertextTooSmall);
    }
    if HEADER_SIZE + ctLen > |datagram| {
      return Err(DatagramTruncated);
    }
    var ct := datagram[HEADER_SIZE..HEADER_SIZE + ctLen];
    var hint := Unmask(ct, key, 4);
    var answer := c.open(key, MakeNonce(FromBE32(hint), direction, key), datagram[..HEADER_SIZE], ct);
    match answer {
      case None => return Err(AuthenticationFailed);
      case Some(pt) => return ParsePlaintext(pt);
    }
  }

  // ---- The two layers invert ----

  // Whatever padding follows, unmasking and slicing gives back exactly the ciphertext.
  lemma UnframeInverts(ct: seq<byte>, xorKey: XorKey, padding: seq<byte>)
    requires ENCRYPT_OVERHEAD <= |ct| <= 0xFFFF
    ensures Unframe(MaskedHeader(|ct|, xorKey) + ct + padding, xorKey) == Ok(ct)
    ensures (MaskedHeader(|ct|, xorKey) + ct + padding)[..HEADER_SIZE] == MaskedHeader(|ct|, xorKey)
  {
    var plain: seq<byte> := [MAGIC, VERSION] + BE16(|ct|);
    var datagram := MaskedHeader(|ct|, xorKey) + ct + padding;
    assert datagram[..HEADER_SIZE] == MaskedHeader(|ct|, xorKey);
    XorAllCancels(plain, xorKey);
    BE16RoundTrip(|ct|, []);
    assert plain[2..] == BE16(|ct|) + [];
    assert datagram[HEADER_SIZE..HEADER_SIZE + |ct|] == ct;
  }

  lemma ParseInverts(payload: seq<byte>, id: u32)
    requires |payload| < 0x1_0000
    ensures ParsePlaintext(Plaintext(payload, id)) == Ok(Decoded(id, payload))
  {
    var pt := Plaintext(payload, id);
    assert pt == BE32(id) + (BE16(|payload|) + payload);
    BE32RoundTrip(id, BE16(|payload|) + payload);
    assert pt[4..] == BE16(|payload|) + payload;
    BE16RoundTrip(|payload|, payload);
    assert pt[PT_HEADER..PT_HEADER + |payload|] == payload;
  }

  // Decoding undoes encoding exactly when the guessed packet id is the real one: the encoder derives
  // the nonce from the packet id, the decoder from the first ciphertext bytes.
  lemma DecodeUndoesEncodeExactly(c: Cipher, payload: seq<byte>, id: u32, direction: u32, key: Key, xorKey: XorKey,
                                  padding: seq<byte>)
    requires Ideal(c) && |payload| <= 862
    ensures |Ciphertext(c, payload, id, direction, key, xorKey)| >= 4
    ensures var datagram := Encode(c, payload, id, direction, key, xorKey, padding).value;
      Decode(c, datagram, direction, key, xorKey) ==
        if HintId(Ciphertext(c, payload, id, direction, key, xorKey), key) == id then Ok(Decoded(id, payload))
        else Err(AuthenticationFailed)
  {
    var ct := Ciphertext(c, payload, id, direction, key, xorKey);
    var header, pt := MaskedHeader(PT_HEADER + |payload| + TAG_SIZE, xorKey), Plaintext(payload, id);
    var nonce := MakeNonce(id, direction, key);
    SealOpens(c, key, nonce, header, pt);
    UnframeInverts(ct, xorKey, padding);
    ParseInverts(payload, id);
    var hint := HintId(ct, key);
    if hint != id {
      if MakeNonce(hint, direction, key) == nonce {
        NonceDeterminesId(hint, id, direction, key);
      }
      OtherNonceFails(c, key, nonce, MakeNonce(hint, direction, key), header, pt);
    }
  }

  // A key whose first byte is not zero and a cipher that leaves the id readable: the datagram is refused.
  lemma DecodeCanRefuseOwnDatagram()
    ensures Ideal(PLAIN)
    ensures var key: Key := [1] + Zeros(31); var padding := Zeros(16);
      Decode(PLAIN, Encode(PLAIN, [7], 0, DIR_CLIENT_TO_SERVER, key, [0, 0, 0, 0], padding).value,
             DIR_CLIENT_TO_SERVER, key, [0, 0, 0, 0]) == Err(AuthenticationFailed)
  {
    PlainIsIdeal();
    var key: Key := [1] + Zeros(31);
    var ct := Ciphertext(PLAIN, [7], 0, DIR_CLIENT_TO_SERVER, key, [0, 0, 0, 0]);
    assert ct[..4] == BE32(0);
    assert ct[0] == 0 && key[0] == 1;
    var x := XorAll(ct[..4], key[..4]);
    assert x[0] == Xor(0, 1) == 1;
    assert FromBE32(x) >= 1 * 256 * 0x1_0000;
    DecodeUndoesEncodeExactly(PLAIN, [7], 0, DIR_CLIENT_TO_SERVER, key, [0, 0, 0, 0], Zeros(16));
  }

  // ---- The datagram on the wire, byte by byte ----

  // The ciphertext length that the masked header declares, if the header is one of this protocol.
  function DeclaredLength(datagram: seq<byte>, xorKey: XorKey): Option<nat>
    requires |datagram| >= 4
  {
    if Xor(datagram[0], xorKey[0]) == 0x48 && Xor(datagram[1], xorKey[1]) == 0x01 then
      Some(Xor(datagram[2], xorKey[2]) as int * 256 + Xor(datagram[3], xorKey[3]))
    else None
  }

  // What the plaintext says: four bytes of packet id, two of length, the payload.
  function ReadPlaintext(pt: seq<byte>): Option<(nat, seq<byte>)>
  {
    if |pt| < 6 then None
    else
      var id := ((pt[0] as int * 256 + pt[1]) * 256 + pt[2]) * 256 + pt[3];
      var len := pt[4] as int * 256 + pt[5];
      if 6 + len > |pt| then None else Some((id, pt[6..6 + len]))
  }

  // The nonce the decoder uses: the first ciphertext bytes under the key, the direction, the key.
  predicate IsHintNonce(n: Nonce, ct: seq<byte>, direction: u32, key: Key)
    requires |ct| >= 4
  {
    && (forall i :: 0 <= i < 4 ==> n[i] == Xor(ct[i], key[i]))
    && FromBE32(n[4..8]) == direction && n[8..12] == key[..4]
  }

  lemma HintNonce(ct: seq<byte>, direction: u32, key: Key)
    requires |ct| >= 4
    ensures IsHintNonce(MakeNonce(HintId(ct, key), direction, key), ct, direction, key)
  {
    var hint := XorAll(ct[..4], key[..4]);
    BE32Surjective(hint);
    NonceFields(HintId(ct, key), direction, key);
    var n := MakeNonce(HintId(ct, key), direction, key);
    assert n[..4] == hint;
    forall i | 0 <= i < 4
      ensures n[i] == Xor(ct[i], key[i])
    {
      assert n[i] == n[..4][i] == hint[i];
    }
  }

  lemma UnmaskedBytes(datagram: seq<byte>, xorKey: XorKey)
    requires |datagram| >= 4
    ensures var h := XorAll(datagram[..4], xorKey);
      && h[0] == Xor(datagram[0], xorKey[0]) && h[1] == Xor(datagram[1], xorKey[1])
      && FromBE16(h[2..]) == Xor(datagram[2], xorKey[2]) as int * 256 + Xor(datagram[3], xorKey[3])
  {
    var h := XorAll(datagram[..4], xorKey);
    assert h[2..][0] == Xor(datagram[2], xorKey[2]) && h[2..][1] == Xor(datagram[3], xorKey[3]);
  }

  lemma HeaderReads(datagram: seq<byte>, xorKey: XorKey)
    requires |datagram| >= 26
    ensures match Unframe(datagram, xorKey)
      case Ok(ct) =>
        var n := DeclaredLength(datagram, xorKey);
        n.Some? && 22 <= n.value && 4 + n.value <= |datagram| && ct == datagram[4..4 + n.value]
      case Err(e) =>
        match DeclaredLength(datagram, xorKey)
        case None =>
          e == if Xor(datagram[0], xorKey[0]) != 0x48 then BadMagic else UnsupportedVersion
        case Some(n) => if n < 22 then e == CiphertextTooSmall else 4 + n > |datagram| && e == DatagramTruncated
  {
    UnmaskedBytes(datagram, xorKey);
  }

  lemma PlaintextReads(pt: seq<byte>)
    ensures match ParsePlaintext(pt)
      case Ok(d) => ReadPlaintext(pt) == Some((d.packetId, d.payload))
      case Err(e) => ReadPlaintext(pt) == None && e == if |pt| < 6 then PlaintextTooShort else PayloadOutOfBounds
  {
    if |pt| >= 6 {
      assert pt[2..][0] == pt[2] && pt[2..][1] == pt[3] && pt[4..][0] == pt[4] && pt[4..][1] == pt[5];
    }
  }

  // What a datagram that does not decode is refused for, in the order of the checks.
  lemma RefusedExactly(c: Cipher, datagram: seq<byte>, direction: u32, key: Key, xorKey: XorKey)
    ensures var r := Decode(c, datagram, direction, key, xorKey);
      && (r == Err(DatagramTooShort) <==> |datagram| < 26)
      && (|datagram| >= 26 ==>
            var n := DeclaredLength(datagram, xorKey);
            && (r == Err(BadMagic) <==> Xor(datagram[0], xorKey[0]) != 0x48)
            && (n.Some? ==>
                  && (r == Err(CiphertextTooSmall) <==> n.value < 22)
                  && (r == Err(DatagramTruncated) <==> n.value >= 22 && 4 + n.value > |datagram|)
                  && (22 <= n.value <= |datagram| - 4 ==>
                        r.Ok? || r.error in {AuthenticationFailed, PlaintextTooShort, PayloadOutOfBounds})))
  {
    if |datagram| >= 26 {
      HeaderReads(datagram, xorKey);
      if Unframe(datagram, xorKey).Ok? {
        RefusedInside(c, datagram, Unframe(datagram, xorKey).value, direction, key, xorKey);
      }
    }
  }

  // A datagram that frames a ciphertext is refused for it, or for what is in it.
  lemma RefusedInside(c: Cipher, datagram: seq<byte>, ct: seq<byte>, direction: u32, key: Key, xorKey: XorKey)
    requires Unframe(datagram, xorKey) == Ok(ct) && |ct| >= 22 && |datagram| >= 26
    ensures var r := Decode(c, datagram, direction, key, xorKey);
      var pt := c.open(key, MakeNonce(HintId(ct, key), direction, key), datagram[..4], ct);
      && (r == Err(AuthenticationFailed) <==> pt == None)
      && (pt.Some? ==>
            && (r == Err(PlaintextTooShort) <==> |pt.value| < 6)
            && (r == Err(PayloadOutOfBounds) <==> |pt.value| >= 6 && ReadPlaintext(pt.value) == None)
            && (r.Ok? <==> ReadPlaintext(pt.value).Some?))
  {
    var pt := c.open(key, MakeNonce(HintId(ct, key), direction, key), datagram[..4], ct);
    if pt.Some? {
      PlaintextReads(pt.value);
    }
  }

  // Exactly these datagrams decode, and to exactly this: the header unmasks to magic, version and a
  // length that fits, the ciphertext opens under the hinted nonce with the header bound to it, and the
  // plaintext holds as many bytes as it says.
  lemma DecodesExactly(c: Cipher, datagram: seq<byte>, direction: u32, key: Key, xorKey: XorKey, nonce: Nonce)
    requires |datagram| >= 26 && IsHintNonce(nonce, datagram[4..], direction, key)
    ensures match Decode(c, datagram, direction, key, xorKey)
      case Ok(d) =>
        && DeclaredLength(datagram, xorKey).Some?
        && var n := DeclaredLength(datagram, xorKey).value;
           && 22 <= n && 4 + n <= |datagram|
           && var pt := c.open(key, nonce, datagram[..4], datagram[4..4 + n]);
              pt.Some? && ReadPlaintext(pt.value) == Some((d.packetId, d.payload))
      case Err(_) =>
        match DeclaredLength(datagram, xorKey)
        case None => true
        case Some(n) =>
          22 <= n && 4 + n <= |datagram| ==>
            var pt := c.open(key, nonce, datagram[..4], datagram[4..4 + n]);
            pt == None || ReadPlaintext(pt.value) == None
  {
    HeaderReads(datagram, xorKey);
    if Unframe(datagram, xorKey).Ok? {
      var ct := Unframe(datagram, xorKey).value;
      HintNonce(ct, direction, key);
      SameHintNonce(nonce, MakeNonce(HintId(ct, key), direction, key), datagram[4..], ct, direction, key);
      var pt := c.open(key, nonce, datagram[..4], ct);
      if pt.Some? {
        PlaintextReads(pt.value);
      }
    }
  }

  lemma SameHintNonce(a: Nonce, b: Nonce, longer: seq<byte>, ct: seq<byte>, direction: u32, key: Key)
    requires 4 <= |ct| <= |longer| && ct == longer[..|ct|]
    requires IsHintNonce(a, longer, direction, key) && IsHintNonce(b, ct, direction, key)
    ensures a == b
  {
    BE32Surjective(a[4..8]);
    BE32Surjective(b[4..8]);
    assert a == a[..4] + a[4..8] + a[8..12] && b == b[..4] + b[4..8] + b[8..12];
    assert a[..4] == b[..4];
  }

  // An encoded datagram, read in the same way.
  lemma EncodedReads(c: Cipher, payload: seq<byte>, id: u32, direction: u32, key: Key, xorKey: XorKey,
                     padding: seq<byte>)
    requires Correct(c) && |payload| <= 862
    ensures Encode(c, payload, id, direction, key, xorKey, padding).Ok?
    ensures var d := Encode(c, payload, id, direction, key, xorKey, padding).value; var n := 22 + |payload|;
      && |d| == 4 + n + |padding| && d[4 + n..] == padding && DeclaredLength(d, xorKey) == Some(n)
      && var pt := c.open(key, MakeNonce(id, direction, key), d[..4], d[4..4 + n]);
         pt.Some? && ReadPlaintext(pt.value) == Some((id, payload))
  {
    var ct := Ciphertext(c, payload, id, direction, key, xorKey);
    var d := Encode(c, payload, id, direction, key, xorKey, padding).value;
    SealOpens(c, key, MakeNonce(id, direction, key), MaskedHeader(|ct|, xorKey), Plaintext(payload, id));
    UnframeInverts(ct, xorKey, padding);
    HeaderReads(d, xorKey);
    ParseInverts(payload, id);
    PlaintextReads(Plaintext(payload, id));
  }
}
