// The MAC-authenticated key agreement: challenge, response, mirrored session keys.
module Handshake {
  import opened Bytes
  import opened Aead

  // Keyed hash, key derivation and Diffie-Hellman as functions.
  datatype Primitives = Primitives(
    mac: (Key, seq<byte>) -> Key,
    kdf: (string, Key) -> Key,
    public: Key -> Key,
    dh: (Key, Key) -> Key)  // own secret, other side's public key

  ghost predicate DhCommutes(p: Primitives)
  {
    forall a: Key, b: Key :: p.dh(a, p.public(b)) == p.dh(b, p.public(a))
  }

  const MESSAGE_SIZE: nat := 76
  const CLIENT_TO_SERVER := "Hidekey-Client-to-Server-Cipher"
  const SERVER_TO_CLIENT := "Hidekey-Server-to-Client-Cipher"

  // `ClientChallenge` and `ServerResponse` have the same layout.
  datatype Message = Message(nonce: Nonce, pub: Key, mac: Key)

  datatype Session = Session(rxKey: Key, txKey: Key)

  function ToBytes(m: Message): (s: seq<byte>)
    ensures |s| == MESSAGE_SIZE
  {
    m.nonce + m.pub + m.mac
  }

  function FromBytes(s: seq<byte>): Message
    requires |s| == MESSAGE_SIZE
  {
    Message(s[0..12], s[12..44], s[44..76])
  }

  lemma MessageRoundTrip(m: Message, s: seq<byte>)
    ensures FromBytes(ToBytes(m)) == m
    ensures |s| == MESSAGE_SIZE ==> ToBytes(FromBytes(s)) == s
  {
    var b := ToBytes(m);
    assert b[0..12] == m.nonce && b[12..44] == m.pub && b[44..76] == m.mac;
  }

  function Authentic(p: Primitives, master: Key, m: Message): bool
  {
    p.mac(master, m.nonce + m.pub) == m.mac
  }

  function Build(p: Primitives, master: Key, nonce: Nonce, secret: Key): Message
  {
    Message(nonce, p.public(secret), p.mac(master, nonce + p.public(secret)))
  }

  // The server's answer to a challenge, for one draw of its secret and nonce.
  function ProcessChallenge(p: Primitives, master: Key, challenge: Message, secret: Key, nonce: Nonce)
    : Option<(Message, Session)>
  {
    if !Authentic(p, master, challenge) then None
    else
      var shared := p.dh(secret, challenge.pub);
      Some((Build(p, master, nonce, secret), Session(p.kdf(CLIENT_TO_SERVER, shared), p.kdf(SERVER_TO_CLIENT, shared))))
  }

  function ProcessResponse(p: Primitives, master: Key, response: Message, secret: Key): Option<Session>
  {
    if !Authentic(p, master, response) then None
    else
      var shared := p.dh(secret, response.pub);
      Some(Session(p.kdf(SERVER_TO_CLIENT, shared), p.kdf(CLIENT_TO_SERVER, shared)))
  }

  // Where the fields lie: twelve bytes of nonce, a public key, a MAC.
  lemma MessageLayout(m: Message)
    ensures ToBytes(m)[..12] == m.nonce && ToBytes(m)[12..44] == m.pub && ToBytes(m)[44..] == m.mac
  {
  }

  // The server answers exactly a challenge whose MAC under the master key covers its nonce and public
  // key; the answer is MACed in the same way, and the keys come from the shared secret, the client's
  // sending key first.
  lemma ProcessChallengeExactly(p: Primitives, master: Key, m: Message, secret: Key, nonce: Nonce)
    ensures var answer := ProcessChallenge(p, master, m, secret, nonce);
      && (answer.Some? <==> p.mac(master, ToBytes(m)[..44]) == ToBytes(m)[44..])
      && (answer.Some? ==>
            var sent, keys, shared := ToBytes(answer.value.0), answer.value.1, p.dh(secret, m.pub);
            && sent[..12] == nonce && sent[12..44] == p.public(secret) && sent[44..] == p.mac(master, sent[..44])
            && keys.rxKey == p.kdf("Hidekey-Client-to-Server-Cipher", shared)
            && keys.txKey == p.kdf("Hidekey-Server-to-Client-Cipher", shared))
  {
    MessageLayout(m);
    assert ToBytes(m)[..44] == m.nonce + m.pub;
    var reply := Build(p, master, nonce, secret);
    MessageLayout(reply);
    assert ToBytes(reply)[..44] == reply.nonce + reply.pub;
  }

  // The client accepts exactly a response whose MAC covers its nonce and public key.
  lemma ProcessResponseExactly(p: Primitives, master: Key, m: Message, secret: Key)
    ensures var session := ProcessResponse(p, master, m, secret);
      && (session.Some? <==> p.mac(master, ToBytes(m)[..44]) == ToBytes(m)[44..])
      && (session.Some? ==>
            && session.value.rxKey == p.kdf("Hidekey-Server-to-Client-Cipher", p.dh(secret, m.pub))
            && session.value.txKey == p.kdf("Hidekey-Client-to-Server-Cipher", p.dh(secret, m.pub)))
  {
    MessageLayout(m);
    assert ToBytes(m)[..44] == m.nonce + m.pub;
  }

  // Both messages cross the wire as 76 bytes; both sides end with each other's keys.
  lemma KeysMirror(p: Primitives, master: Key, clientSecret: Key, clientNonce: Nonce,
                   serverSecret: Key, serverNonce: Nonce)
    requires DhCommutes(p)
    ensures var sent := Build(p, master, clientNonce, clientSecret);
      var server := ProcessChallenge(p, master, FromBytes(ToBytes(sent)), serverSecret, serverNonce);
      && server.Some?
      && var client := ProcessResponse(p, master, FromBytes(ToBytes(server.value.0)), clientSecret);
         client == Some(Session(server.value.1.txKey, server.value.1.rxKey))
  {
    MessageRoundTrip(Build(p, master, clientNonce, clientSecret), []);
    MessageRoundTrip(Build(p, master, serverNonce, serverSecret), []);
    assert p.dh(clientSecret, p.public(serverSecret)) == p.dh(serverSecret, p.public(clientSecret));
  }

  lemma AccumulatorZero(acc: bv8, x: bv8, y: bv8)
    ensures acc | (x ^ y) == 0 <==> acc == 0 && x == y
  {
  }

  lemma DifferencesAccumulate(acc: bv8, a: byte, b: byte)
    ensures acc | ((a as bv8) ^ (b as bv8)) == 0 <==> acc == 0 && a == b
  {
    AccumulatorZero(acc, a as bv8, b as bv8);
    IntRoundTrip(a);
    IntRoundTrip(b);
  }

  // The constant-time comparison: the OR of all byte differences is zero exactly for equal MACs.
  method VerifyMac(p: Primitives, key: Key, data: seq<byte>, expected: Key) returns (ok: bool)
    ensures ok <==> p.mac(key, data) == expected
  {
    var actual := p.mac(key, data);
    var accum: bv8 := 0;
    for i := 0 to 32
      invariant accum == 0 <==> actual[..i] == expected[..i]
    {
      DifferencesAccumulate(accum, actual[i], expected[i]);
      assert actual[..i + 1] == actual[..i] + [actual[i]];
      assert expected[..i + 1] == expected[..i] + [expected[i]];
      accum := accum | ((actual[i] as bv8) ^ (expected[i] as bv8));
    }
    assert actual[..32] == actual && expected[..32] == expected;
    ok := accum == 0;
  }

  // `process_challenge` and `process_response`, with the constant-time check.
  method AnswerChallenge(p: Primitives, master: Key, challenge: Message, secret: Key, nonce: Nonce)
    returns (answer: Option<(Message, Session)>)
    ensures answer == ProcessChallenge(p, master, challenge, secret, nonce)
  {
    var authentic := VerifyMac(p, master, challenge.nonce + challenge.pub, challenge.mac);
    if !authentic {
      return None;
    }
    var shared := p.dh(secret, challenge.pub);
    var pub := p.public(secret);
    var response := Message(nonce, pub, p.mac(master, nonce + pub));
    answer := Some((response, Session(p.kdf(CLIENT_TO_SERVER, shared), p.kdf(SERVER_TO_CLIENT, shared))));
  }

  method AcceptResponse(p: Primitives, master: Key, response: Message, secret: Key) returns (session: Option<Session>)
    ensures session == ProcessResponse(p, master, response, secret)
  {
    var authentic := VerifyMac(p, master, response.nonce + response.pub, response.mac);
    if !authentic {
      return None;
    }
    var shared := p.dh(secret, response.pub);
    session := Some(Session(p.kdf(SERVER_TO_CLIENT, shared), p.kdf(CLIENT_TO_SERVER, shared)));
  }
}
