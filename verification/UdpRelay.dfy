// The relay from the target's TCP stream to the client's UDP datagrams.
module UdpRelay {
  import opened Bytes
  import opened Aead
  import opened UdpCodec

  const CHUNK: nat := MAX_UDP_PAYLOAD - HEADER_SIZE - ENCRYPT_OVERHEAD - 16
  const LARGEST_ENCODABLE: nat := 862

  // One read of the TCP stream, cut from the front.
  function Chunks(data: seq<byte>): seq<seq<byte>>
  {
    if data == [] then [] else [data[..Min(CHUNK, |data|)]] + Chunks(data[Min(CHUNK, |data|)..])
  }

  // The chunks the encoder accepts, with the packet ids they get.
  function Numbered(chunks: seq<seq<byte>>, counter: u32): seq<(u32, seq<byte>)>
  {
    if chunks == [] then []
    else if |chunks[0]| <= LARGEST_ENCODABLE then
      [(counter, chunks[0])] + Numbered(chunks[1..], Wrap32(counter + 1))
    else Numbered(chunks[1..], counter)
  }

  lemma {:induction false} ChunksPartition(data: seq<byte>)
    ensures Concat(Chunks(data)) == data
    ensures forall c <- Chunks(data) :: 0 < |c| <= CHUNK
  {
    if data != [] {
      ChunksPartition(data[Min(CHUNK, |data|)..]);
      assert Chunks(data)[1..] == Chunks(data[Min(CHUNK, |data|)..]);
    }
  }

  lemma {:induction false} IdsAreConsecutive(chunks: seq<seq<byte>>, counter: u32, i: nat)
    requires i < |Numbered(chunks, counter)|
    ensures Numbered(chunks, counter)[i].0 == Wrap32(counter + i)
  {
    if |chunks[0]| > LARGEST_ENCODABLE {
      IdsAreConsecutive(chunks[1..], counter, i);
    } else if i > 0 {
      IdsAreConsecutive(chunks[1..], Wrap32(counter + 1), i - 1);
    }
  }

  // One turn of the loop: the next chunk, then whatever the rest gives.
  lemma NumberedTurn(data: seq<byte>, offset: nat, end: nat, counter: u32)
    requires offset < |data| && end == Min(offset + CHUNK, |data|)
    ensures var rest := Chunks(data[end..]);
      Numbered(Chunks(data[offset..]), counter) ==
        if end - offset <= LARGEST_ENCODABLE then [(counter, data[offset..end])] + Numbered(rest, Wrap32(counter + 1))
        else Numbered(rest, counter)
  {
    var d := data[offset..];
    assert d[..Min(CHUNK, |d|)] == data[offset..end] && d[Min(CHUNK, |d|)..] == data[end..];
    assert Chunks(d)[0] == data[offset..end] && Chunks(d)[1..] == Chunks(data[end..]);
  }

  lemma SameTail(data: seq<byte>)
    requires |data| >= CHUNK
    ensures var rest := data[CHUNK..]; var tail := |data| % CHUNK;
      |rest| % CHUNK == tail && rest[|rest| - tail..] == data[|data| - tail..]
  {
  }

  // What one read delivers: its last partial chunk, if that is short enough. Full chunks never fit.
  lemma {:induction false} OnlyShortTailsSurvive(data: seq<byte>, counter: u32)
    ensures var tail := |data| % CHUNK;
      Numbered(Chunks(data), counter) ==
        if 0 < tail <= LARGEST_ENCODABLE then [(counter, data[|data| - tail..])] else []
  {
    if data != [] {
      assert data[0..] == data;
      var end := Min(CHUNK, |data|);
      NumberedTurn(data, 0, end, counter);
      if |data| >= CHUNK {
        var rest := data[CHUNK..];
        OnlyShortTailsSurvive(rest, counter);
        SameTail(data);
      } else {
        assert data[0..end] == data && data[end..] == [];
      }
    }
  }

  function Payloads(numbered: seq<(u32, seq<byte>)>): seq<seq<byte>>
  {
    seq(|numbered|, i requires 0 <= i < |numbered| => numbered[i].1)
  }

  // A read reaches the client whole exactly when it is at most 862 bytes long.
  lemma WholeReadDeliveredExactly(data: seq<byte>, counter: u32)
    ensures Concat(Payloads(Numbered(Chunks(data), counter))) == data <==> |data| <= LARGEST_ENCODABLE
  {
    OnlyShortTailsSurvive(data, counter);
    var tail := |data| % CHUNK;
    if 0 < tail <= LARGEST_ENCODABLE {
      assert Payloads(Numbered(Chunks(data), counter)) == [data[|data| - tail..]];
      ConcatSnoc([], data[|data| - tail..]);
      assert |data| < CHUNK ==> data[|data| - tail..] == data;
    } else {
      assert Payloads(Numbered(Chunks(data), counter)) == [];
    }
  }

  // A read of 863 bytes: nothing of it is sent.
  lemma ReadOf863IsLost(counter: u32)
    ensures Numbered(Chunks(Zeros(863)), counter) == []
  {
    OnlyShortTailsSurvive(Zeros(863), counter);
  }

  predicate PadInRange(padding: seq<byte>) { PAD_MIN <= |padding| <= PAD_MAX }

  ghost predicate PadsInRange(pads: nat -> seq<byte>) { forall i: nat :: PadInRange(pads(i)) }

  // Each datagram is the encoding of its numbered chunk.
  ghost predicate Encodes(c: Cipher, sent: seq<seq<byte>>, numbered: seq<(u32, seq<byte>)>, key: Key, xorKey: XorKey,
                          pads: nat -> seq<byte>)
  {
    && |sent| == |numbered|
    && forall i :: 0 <= i < |sent| ==>
         Encode(c, numbered[i].1, numbered[i].0, DIR_SERVER_TO_CLIENT, key, xorKey, pads(i)) == Ok(sent[i])
  }

  lemma EncodesOneMore(c: Cipher, sent: seq<seq<byte>>, numbered: seq<(u32, seq<byte>)>, key: Key, xorKey: XorKey,
                       pads: nat -> seq<byte>, id: u32, chunk: seq<byte>, datagram: seq<byte>)
    requires Encodes(c, sent, numbered, key, xorKey, pads)
    requires Encode(c, chunk, id, DIR_SERVER_TO_CLIENT, key, xorKey, pads(|sent|)) == Ok(datagram)
    ensures Encodes(c, sent + [datagram], numbered + [(id, chunk)], key, xorKey, pads)
  {
  }

  // A nonce of the packet with this id, sent by the server under this key.
  predicate IsServerNonce(n: Nonce, id: u32, key: Key)
  {
    FromBE32(n[..4]) == id && FromBE32(n[4..8]) == 2 && n[8..12] == key[..4]
  }

  // Each datagram that is sent carries its chunk and its id to a client that opens it with the
  // server's tag.
  lemma SentReachesClient(c: Cipher, sent: seq<seq<byte>>, numbered: seq<(u32, seq<byte>)>, key: Key, xorKey: XorKey,
                          pads: nat -> seq<byte>, i: nat, nonce: Nonce)
    requires Correct(c) && Encodes(c, sent, numbered, key, xorKey, pads) && i < |sent|
    requires |numbered[i].1| <= 862 && IsServerNonce(nonce, numbered[i].0, key)
    ensures var d, n := sent[i], 22 + |numbered[i].1|;
      && |d| >= 4 + n && DeclaredLength(d, xorKey) == Some(n)
      && var pt := c.open(key, nonce, d[..4], d[4..4 + n]);
         pt.Some? && ReadPlaintext(pt.value) == Some(numbered[i])
  {
    var (id, chunk) := numbered[i];
    var used := MakeNonce(id, DIR_SERVER_TO_CLIENT, key);
    EncodedReads(c, chunk, id, DIR_SERVER_TO_CLIENT, key, xorKey, pads(i));
    DirectionsNeverShareNonces(id, id, key);
    NonceFields(id, DIR_SERVER_TO_CLIENT, key);
    BE32Surjective(nonce[..4]);
    BE32Surjective(nonce[4..8]);
    BE32Surjective(used[..4]);
    BE32Surjective(used[4..8]);
    assert nonce == nonce[..4] + nonce[4..8] + nonce[8..12] && used == used[..4] + used[4..8] + used[8..12];
  }

  // The counter after `n` datagrams.
  function CounterAfter(counter: u32, n: nat): u32
  {
    if n == 0 then counter else Wrap32(CounterAfter(counter, n - 1) + 1)
  }

  lemma {:induction false} CounterAfterWraps(counter: u32, n: nat)
    ensures CounterAfter(counter, n) == Wrap32(counter + n)
  {
    if n > 0 {
      CounterAfterWraps(counter, n - 1);
      WrapNext32(counter + (n - 1));
    }
  }

  lemma RelayTurn(data: seq<byte>, offset: nat, end: nat, next: u32, done: seq<(u32, seq<byte>)>,
                  all: seq<(u32, seq<byte>)>)
    requires offset < |data| && end == Min(offset + CHUNK, |data|)
    requires all == done + Numbered(Chunks(data[offset..]), next)
    ensures all ==
      if end - offset <= LARGEST_ENCODABLE then
        done + [(next, data[offset..end])] + Numbered(Chunks(data[end..]), Wrap32(next + 1))
      else done + Numbered(Chunks(data[end..]), next)
  {
    NumberedTurn(data, offset, end, next);
  }

  // The loop body of `tcp_to_udp_relay` for one read: `pads(i)` is the padding drawn for the i-th
  // datagram, and sending never fails the relay.
  method RelayRead(c: Cipher, data: seq<byte>, counter: u32, key: Key, xorKey: XorKey, pads: nat -> seq<byte>)
    returns (sent: seq<seq<byte>>, next: u32)
    requires Correct(c) && PadsInRange(pads)
    ensures var numbered := Numbered(Chunks(data), counter);
      Encodes(c, sent, numbered, key, xorKey, pads) && next == Wrap32(counter + |numbered|)
  {
    var outBuf := new byte[MAX_UDP_PAYLOAD];
    sent, next := [], counter;
    var offset := 0;
    ghost var done: seq<(u32, seq<byte>)> := [];
    ghost var all := Numbered(Chunks(data), counter);
    assert data[0..] == data;
    while offset < |data|
      invariant 0 <= offset <= |data|
      invariant all == done + Numbered(Chunks(data[offset..]), next)
      invariant Encodes(c, sent, done, key, xorKey, pads) && next == CounterAfter(counter, |sent|)
    {
      var end := Min(offset + CHUNK, |data|);
      RelayTurn(data, offset, end, next, done, all);
      sent, next, done := RelayChunk(c, data[offset..end], counter, key, xorKey, pads, outBuf, sent, next, done);
      offset := end;
    }
    assert data[offset..] == [];
    CounterAfterWraps(counter, |sent|);
  }

  // One turn: the chunk is encoded and sent under the next id, or skipped.
  method RelayChunk(c: Cipher, chunk: seq<byte>, counter: u32, key: Key, xorKey: XorKey, pads: nat -> seq<byte>,
                    outBuf: array<byte>, sent: seq<seq<byte>>, next: u32, ghost done: seq<(u32, seq<byte>)>)
    returns (longer: seq<seq<byte>>, after: u32, ghost doneAfter: seq<(u32, seq<byte>)>)
    requires Correct(c) && PadsInRange(pads) && outBuf.Length == MAX_UDP_PAYLOAD
    requires Encodes(c, sent, done, key, xorKey, pads) && next == CounterAfter(counter, |sent|)
    modifies outBuf
    ensures Encodes(c, longer, doneAfter, key, xorKey, pads) && after == CounterAfter(counter, |longer|)
    ensures doneAfter == if |chunk| <= LARGEST_ENCODABLE then done + [(next, chunk)] else done
    ensures after == if |chunk| <= LARGEST_ENCODABLE then Wrap32(next + 1) else next
  {
    longer, after, doneAfter := sent, next, done;
    var padding := pads(|sent|);
    assert PadInRange(padding);
    var result := EncodeChunk(c, chunk, next, key, xorKey, padding, outBuf);
    if result.Some? {
      EncodesOneMore(c, sent, done, key, xorKey, pads, next, chunk, result.value);
      doneAfter := done + [(next, chunk)];
      longer := sent + [result.value];
      after := Wrap32(next + 1);
    }
  }

  // One datagram for the client, or nothing when the encoder rejects the chunk.
  method EncodeChunk(c: Cipher, chunk: seq<byte>, id: u32, key: Key, xorKey: XorKey, padding: seq<byte>,
                     outBuf: array<byte>)
    returns (datagram: Option<seq<byte>>)
    requires Correct(c) && outBuf.Length == MAX_UDP_PAYLOAD && PadInRange(padding)
    modifies outBuf
    ensures datagram.Some? <==> |chunk| <= LARGEST_ENCODABLE
    ensures datagram.Some? ==> Encode(c, chunk, id, DIR_SERVER_TO_CLIENT, key, xorKey, padding) == Ok(datagram.value)
  {
    var result := EncodePacket(c, chunk, id, DIR_SERVER_TO_CLIENT, key, xorKey, padding, outBuf);
    EncodesExactlyUpTo862(c, chunk, id, DIR_SERVER_TO_CLIENT, key, xorKey, padding);
    match result
    case Ok(n) => datagram := Some(outBuf[..n]);
    case Err(_) => datagram := None;
  }
}
