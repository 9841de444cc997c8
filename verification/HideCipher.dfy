// The per-direction stream cipher: RTP-wrapped records under lock-step nonces.
module HideCipher {
  import opened Bytes
  import opened Aead
  import opened Stego

  datatype State = State(key: Key, direction: byte, counter: u32, rtp: Rtp)

  function MakeNonce(key: Key, direction: byte, counter: u32, seqNumber: u16): Nonce
  {
    [direction] + BE32(counter) + BE16(seqNumber) + key[..5]
  }

  function Encrypted(c: Cipher, st: State, plaintext: seq<byte>): seq<byte>
  {
    c.seal(st.key, MakeNonce(st.key, st.direction, st.counter, st.rtp.seqNumber), [], plaintext)
  }

  function Sealed(c: Cipher, st: State, plaintext: seq<byte>): seq<byte>
  {
    Pack(st.rtp, Encrypted(c, st, plaintext))
  }

  function AfterSeal(st: State): State
  {
    st.(counter := Wrap32(st.counter + 1), rtp := Advance(st.rtp))
  }

  function Open(c: Cipher, st: State, packet: seq<byte>): (Option<seq<byte>>, State)
  {
    match UnpackRtp(packet)
    case None => (None, st)
    case Some(ciphertext) =>
      if |ciphertext| < TAG_SIZE then (None, st)
      else
        var nonce := MakeNonce(st.key, st.direction, st.counter, FromBE16(packet[2..4]));
        match c.open(st.key, nonce, [], ciphertext)
        case None => (None, st)
        case Some(pt) => (Some(pt), st.(counter := Wrap32(st.counter + 1)))
  }

  // The cipher as the relays hold it.
  class HideCipher {
    const key: Key
    const direction: byte
    var counter: u32
    const rtpState: RtpSessionState

    constructor (key: Key, direction: byte, rtp: Rtp)
      ensures View() == State(key, direction, 0, rtp) && fresh(rtpState)
    {
      this.key, this.direction, counter := key, direction, 0;
      rtpState := new RtpSessionState(rtp);
    }

    function View(): State
      reads this, rtpState
    {
      State(key, direction, counter, rtpState.View())
    }

    // The wire bytes: the RTP packet behind its length prefix.
    method Seal(c: Cipher, plaintext: seq<byte>) returns (wire: seq<byte>)
      modifies this, rtpState
      ensures wire == LengthPrefix(Sealed(c, old(View()), plaintext)) && View() == AfterSeal(old(View()))
    {
      var seqNumber := rtpState.seqNumber;
      var nonce := MakeNonce(key, direction, counter, seqNumber);
      var ciphertext := c.seal(key, nonce, [], plaintext);
      var packet := rtpState.PackPayload(ciphertext);
      counter := Wrap32(counter + 1);
      wire := LengthPrefix(packet);
    }

    method OpenPacket(c: Cipher, packet: seq<byte>) returns (plaintext: Option<seq<byte>>)
      modifies this
      ensures (plaintext, View()) == Open(c, old(View()), packet)
    {
      var ciphertext := UnpackPacket(packet);
      if ciphertext.None? || |ciphertext.value| < TAG_SIZE {
        return None;
      }
      var seqNumber := FromBE16(packet[2..4]);
      var nonce := MakeNonce(key, direction, counter, seqNumber);
      plaintext := c.open(key, nonce, [], ciphertext.value);
      if plaintext.Some? {
        counter := Wrap32(counter + 1);
      }
    }
  }

  // Any packet at all: it opens exactly if it is RTP version 2, long enough for a tag, and what follows
  // the header opens under the receiver's own count and the packet's sequence number. Then, and only
  // then, the count moves on; nothing else of the receiver ever changes.
  lemma OpenMovesExactly(c: Cipher, st: State, packet: seq<byte>)
    ensures var (plaintext, next) := Open(c, st, packet);
      && (plaintext == None ==> next == st)
      && (plaintext.Some? ==> next == st.(counter := Wrap32(st.counter + 1)))
      && (plaintext.Some? <==>
            && |packet| >= 28 && packet[0] / 64 == 2
            && var n := MakeNonce(st.key, st.direction, st.counter, FromBE16(packet[2..4]));
               c.open(st.key, n, [], packet[12..]).Some?)
      && (plaintext.Some? ==>
            var n := MakeNonce(st.key, st.direction, st.counter, FromBE16(packet[2..4]));
            plaintext == c.open(st.key, n, [], packet[12..]))
  {
  }

  // ---- Nonces over a whole session ----

  function StateAt(st: State, i: nat): State
  {
    if i == 0 then st else AfterSeal(StateAt(st, i - 1))
  }

  function NonceAt(st: State, i: nat): Nonce
  {
    var s := StateAt(st, i);
    MakeNonce(s.key, s.direction, s.counter, s.rtp.seqNumber)
  }

  lemma {:induction false} CountersAt(st: State, i: nat)
    ensures var s := StateAt(st, i);
      && s.key == st.key && s.direction == st.direction
      && s.counter == Wrap32(st.counter + i) && s.rtp.seqNumber == Truncate16(st.rtp.seqNumber + i)
  {
    if i > 0 {
      CountersAt(st, i - 1);
      WrapNext32(st.counter + (i - 1));
      WrapNext16(st.rtp.seqNumber + (i - 1));
    }
  }

  lemma NonceFields(key: Key, direction: byte, counter: u32, seqNumber: u16)
    ensures var n := MakeNonce(key, direction, counter, seqNumber);
      n[0] == direction && n[1..5] == BE32(counter) && n[5..7] == BE16(seqNumber) && n[7..] == key[..5]
  {
  }

  lemma NonceInjective(key: Key, direction: byte, c1: u32, s1: u16, c2: u32, s2: u16)
    ensures MakeNonce(key, direction, c1, s1) == MakeNonce(key, direction, c2, s2) <==> c1 == c2 && s1 == s2
  {
    NonceFields(key, direction, c1, s1);
    NonceFields(key, direction, c2, s2);
    if MakeNonce(key, direction, c1, s1) == MakeNonce(key, direction, c2, s2) {
      BE32Injective(c1, c2);
      BE16RoundTrip(s1, []);
      BE16RoundTrip(s2, []);
      assert BE16(s1) + [] == BE16(s2) + [];
    }
  }

  lemma CongruentSums(c: nat, i: nat, j: nat, m: nat)
    requires i <= j && m == 0x1_0000_0000
    ensures (c + i) % m == (c + j) % m <==> i % m == j % m
  {
  }

  lemma MultipleVanishes(x: nat, k: nat)
    ensures (x + k * 0x1_0000) % 0x1_0000 == x % 0x1_0000
  {
    var q, r := x / 0x1_0000, x % 0x1_0000;
    assert x + k * 0x1_0000 == (q + k) * 0x1_0000 + r;
  }

  lemma CongruentSums16(c: nat, i: nat, j: nat)
    requires i <= j && i % 0x1_0000_0000 == j % 0x1_0000_0000
    ensures (c + i) % 0x1_0000 == (c + j) % 0x1_0000
  {
    var k := j / 0x1_0000_0000 - i / 0x1_0000_0000;
    assert j == i + k * 0x1_0000_0000;
    MultipleVanishes(c + i, k * 0x1_0000);
  }

  // Two seals share a nonce exactly when their indices agree modulo 2^32, although the RTP sequence
  // number repeats every 2^16 packets.
  lemma NonceReuseExactly(st: State, i: nat, j: nat)
    requires i <= j
    ensures NonceAt(st, i) == NonceAt(st, j) <==> i % 0x1_0000_0000 == j % 0x1_0000_0000
  {
    CountersAt(st, i);
    CountersAt(st, j);
    var a, b := StateAt(st, i), StateAt(st, j);
    NonceInjective(st.key, st.direction, a.counter, a.rtp.seqNumber, b.counter, b.rtp.seqNumber);
    CongruentSums(st.counter, i, j, 0x1_0000_0000);
    if i % 0x1_0000_0000 == j % 0x1_0000_0000 {
      CongruentSums16(st.rtp.seqNumber, i, j);
    }
  }

  // Two directions never share a nonce, however far their counters have come.
  lemma DirectionsNeverShareNonces(st: State, other: State, i: nat, j: nat)
    requires st.direction != other.direction
    ensures NonceAt(st, i) != NonceAt(other, j)
  {
    CountersAt(st, i);
    CountersAt(other, j);
    var a, b := StateAt(st, i), StateAt(other, j);
    NonceFields(a.key, a.direction, a.counter, a.rtp.seqNumber);
    NonceFields(b.key, b.direction, b.counter, b.rtp.seqNumber);
  }

  // ---- Loss, duplication, reordering ----

  // What the network may hand to the receiver for the i-th packet: its ciphertext under any header,
  // since the RTP header is not authenticated.
  datatype Delivery = Delivery(index: nat, header: seq<byte>)

  predicate Fits(d: Delivery, plaintexts: seq<seq<byte>>)
  {
    d.index < |plaintexts| && |d.header| == RTP_HEADER_SIZE
  }

  function Packet(c: Cipher, st: State, plaintexts: seq<seq<byte>>, d: Delivery): seq<byte>
    requires Fits(d, plaintexts)
  {
    d.header + Encrypted(c, StateAt(st, d.index), plaintexts[d.index])
  }

  function Receive(c: Cipher, st: State, rx: State, plaintexts: seq<seq<byte>>, ds: seq<Delivery>)
    : (seq<seq<byte>>, State)
    requires forall d <- ds :: Fits(d, plaintexts)
  {
    if ds == [] then ([], rx)
    else
      var (accepted, s) := Receive(c, st, rx, plaintexts, ds[..|ds| - 1]);
      var (pt, next) := Open(c, s, Packet(c, st, plaintexts, ds[|ds| - 1]));
      (if pt.Some? then accepted + [pt.value] else accepted, next)
  }

  // A delivery opens exactly when the header is RTP version 2 with the sealed sequence number and
  // the receiver's counter is the sealing one; it then yields the sealed plaintext.
  lemma OpensExactly(c: Cipher, st: State, rx: State, plaintexts: seq<seq<byte>>, d: Delivery)
    requires Ideal(c) && Fits(d, plaintexts) && rx.key == st.key && rx.direction == st.direction
    ensures var genuine := d.header[0] / 64 == 2
        && FromBE16(d.header[2..4]) == Truncate16(st.rtp.seqNumber + d.index)
        && rx.counter == Wrap32(st.counter + d.index);
      Open(c, rx, Packet(c, st, plaintexts, d)) ==
        if genuine then (Some(plaintexts[d.index]), rx.(counter := Wrap32(rx.counter + 1))) else (None, rx)
  {
    var packet, s := Packet(c, st, plaintexts, d), StateAt(st, d.index);
    CountersAt(st, d.index);
    assert packet[..RTP_HEADER_SIZE] == d.header;
    assert packet[RTP_HEADER_SIZE..] == Encrypted(c, s, plaintexts[d.index]);
    assert packet[2..4] == d.header[2..4];
    var sealing := MakeNonce(s.key, s.direction, s.counter, s.rtp.seqNumber);
    var opening := MakeNonce(rx.key, rx.direction, rx.counter, FromBE16(packet[2..4]));
    SealOpens(c, st.key, sealing, [], plaintexts[d.index]);
    NonceInjective(st.key, st.direction, s.counter, s.rtp.seqNumber, rx.counter, FromBE16(packet[2..4]));
    if sealing != opening {
      OtherNonceFails(c, st.key, sealing, opening, [], plaintexts[d.index]);
    }
  }

  // A packet of one direction never opens in the other, under any header: not even its own sender
  // accepts it back.
  lemma OtherDirectionNeverOpens(c: Cipher, st: State, rx: State, plaintexts: seq<seq<byte>>, d: Delivery)
    requires Ideal(c) && Fits(d, plaintexts) && rx.key == st.key && rx.direction != st.direction
    ensures Open(c, rx, Packet(c, st, plaintexts, d)) == (None, rx)
  {
    var packet, s := Packet(c, st, plaintexts, d), StateAt(st, d.index);
    CountersAt(st, d.index);
    assert packet[..RTP_HEADER_SIZE] == d.header;
    assert packet[RTP_HEADER_SIZE..] == Encrypted(c, s, plaintexts[d.index]);
    var sealing := MakeNonce(s.key, s.direction, s.counter, s.rtp.seqNumber);
    var opening := MakeNonce(rx.key, rx.direction, rx.counter, FromBE16(packet[2..4]));
    NonceFields(s.key, s.direction, s.counter, s.rtp.seqNumber);
    NonceFields(rx.key, rx.direction, rx.counter, FromBE16(packet[2..4]));
    SealOpens(c, st.key, sealing, [], plaintexts[d.index]);
    OtherNonceFails(c, st.key, sealing, opening, [], plaintexts[d.index]);
  }

  lemma OneDelivery(c: Cipher, st: State, rx: State, plaintexts: seq<seq<byte>>, d: Delivery, k: nat)
    requires Ideal(c) && |plaintexts| < 0x1_0000_0000 && Fits(d, plaintexts) && k <= |plaintexts|
    requires rx.key == st.key && rx.direction == st.direction && st.counter == 0
    ensures var r := Open(c, rx.(counter := k), Packet(c, st, plaintexts, d));
      || r == (None, rx.(counter := k))
      || (d.index == k < |plaintexts| && r == (Some(plaintexts[k]), rx.(counter := k + 1)))
  {
    OpensExactly(c, st, rx.(counter := k), plaintexts, d);
  }

  // The two header fields the receiver looks at are as they were sent.
  predicate Untouched(st: State, d: Delivery)
  {
    |d.header| == RTP_HEADER_SIZE && d.header[0] / 64 == 2
    && FromBE16(d.header[2..4]) == Truncate16(st.rtp.seqNumber + d.index)
  }

  // The packet as it left the sender.
  function Genuine(st: State, k: nat): Delivery
  {
    var s := StateAt(st, k);
    Delivery(k, Serialize(NewHeader(s.rtp.seqNumber, s.rtp.timestamp, s.rtp.ssrc)))
  }

  lemma GenuineIsUntouched(c: Cipher, st: State, plaintexts: seq<seq<byte>>, k: nat)
    requires k < |plaintexts|
    ensures Untouched(st, Genuine(st, k))
    ensures Packet(c, st, plaintexts, Genuine(st, k)) == Sealed(c, StateAt(st, k), plaintexts[k])
  {
    var s := StateAt(st, k);
    var h := NewHeader(s.rtp.seqNumber, s.rtp.timestamp, s.rtp.ssrc);
    CountersAt(st, k);
    HeaderRoundTripExactly(h);
    SerializedNumbers(h);
  }

  lemma UntouchedOpens(c: Cipher, st: State, rx: State, plaintexts: seq<seq<byte>>, d: Delivery)
    requires Ideal(c) && d.index < |plaintexts| < 0x1_0000_0000 && Untouched(st, d)
    requires rx.key == st.key && rx.direction == st.direction && st.counter == 0 && rx.counter == d.index
    ensures Open(c, rx, Packet(c, st, plaintexts, d)) == (Some(plaintexts[d.index]), rx.(counter := d.index + 1))
  {
    OpensExactly(c, st, rx, plaintexts, d);
  }

  lemma ReceiveSnoc(c: Cipher, st: State, rx: State, plaintexts: seq<seq<byte>>, ds: seq<Delivery>,
                    got: seq<seq<byte>>, s: State, pt: seq<byte>, next: State)
    requires ds != [] && forall d <- ds :: Fits(d, plaintexts)
    requires Receive(c, st, rx, plaintexts, ds[..|ds| - 1]) == (got, s)
    requires Open(c, s, Packet(c, st, plaintexts, ds[|ds| - 1])) == (Some(pt), next)
    ensures Receive(c, st, rx, plaintexts, ds) == (got + [pt], next)
  {
  }

  // For fewer than 2^32 sealed packets, whatever is lost, repeated, reordered or given another
  // header, the receiver accepts a prefix of what was sealed and its counter is the prefix length.
  lemma {:induction false} AcceptsPrefix(c: Cipher, st: State, rx: State, plaintexts: seq<seq<byte>>, ds: seq<Delivery>)
    returns (k: nat)
    requires Ideal(c) && |plaintexts| < 0x1_0000_0000 && (forall d <- ds :: Fits(d, plaintexts))
    requires rx.key == st.key && rx.direction == st.direction && st.counter == 0 && rx.counter == 0
    ensures k <= |plaintexts| && k <= |ds|
    ensures Receive(c, st, rx, plaintexts, ds) == (plaintexts[..k], rx.(counter := k))
  {
    if ds == [] {
      k := 0;
    } else {
      var init, d := ds[..|ds| - 1], ds[|ds| - 1];
      k := AcceptsPrefix(c, st, rx, plaintexts, init);
      OneDelivery(c, st, rx, plaintexts, d, k);
      if Open(c, rx.(counter := k), Packet(c, st, plaintexts, d)).0.Some? {
        assert plaintexts[..k] + [plaintexts[k]] == plaintexts[..k + 1];
        k := k + 1;
      }
    }
  }

  predicate InOrder(st: State, ds: seq<Delivery>)
  {
    forall i :: 0 <= i < |ds| ==> ds[i].index == i && Untouched(st, ds[i])
  }

  // Nothing lost, nothing reordered and those two fields intact: everything arrives.
  lemma {:induction false} InOrderDeliveryIsComplete(c: Cipher, st: State, rx: State,
                                                     plaintexts: seq<seq<byte>>, ds: seq<Delivery>)
    requires Ideal(c) && |ds| <= |plaintexts| < 0x1_0000_0000
    requires (forall d <- ds :: Fits(d, plaintexts)) && InOrder(st, ds)
    requires rx.key == st.key && rx.direction == st.direction && st.counter == 0 && rx.counter == 0
    ensures Receive(c, st, rx, plaintexts, ds) == (plaintexts[..|ds|], rx.(counter := |ds|))
  {
    if ds != [] {
      var n := |ds| - 1;
      InOrderDeliveryIsComplete(c, st, rx, plaintexts, ds[..n]);
      UntouchedOpens(c, st, rx.(counter := n), plaintexts, ds[n]);
      ReceiveSnoc(c, st, rx, plaintexts, ds, plaintexts[..n], rx.(counter := n), plaintexts[n], rx.(counter := n + 1));
      assert plaintexts[..n] + [plaintexts[n]] == plaintexts[..n + 1];
    }
  }
}
