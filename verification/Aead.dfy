// ChaCha20-Poly1305 and AES-GCM as a pair of functions with the two facts the protocols rely on.
module Aead {
  import opened Bytes

  const TAG_SIZE: nat := 16

  type Key = k: seq<byte> | |k| == 32 witness seq(32, _ => 0)
  type Nonce = n: seq<byte> | |n| == 12 witness seq(12, _ => 0)

  datatype Cipher = Cipher(
    seal: (Key, Nonce, seq<byte>, seq<byte>) -> seq<byte>,         // key, nonce, associated data, message
    open: (Key, Nonce, seq<byte>, seq<byte>) -> Option<seq<byte>>) // key, nonce, associated data, ciphertext

  // What was sealed opens, and the tag adds sixteen bytes.
  ghost predicate Correct(c: Cipher)
  {
    forall k: Key, n: Nonce, aad: seq<byte>, m: seq<byte> ::
      |c.seal(k, n, aad, m)| == |m| + TAG_SIZE && c.open(k, n, aad, c.seal(k, n, aad, m)) == Some(m)
  }

  // A sealed message opens under no other nonce.
  ghost predicate BindsNonce(c: Cipher)
  {
    forall k: Key, n: Nonce, other: Nonce, aad: seq<byte>, m: seq<byte> ::
      n != other ==> c.open(k, other, aad, c.seal(k, n, aad, m)) == None
  }

  ghost predicate Ideal(c: Cipher)
  {
    Correct(c) && BindsNonce(c)
  }

  lemma SealOpens(c: Cipher, k: Key, n: Nonce, aad: seq<byte>, m: seq<byte>)
    requires Correct(c)
    ensures |c.seal(k, n, aad, m)| == |m| + TAG_SIZE
    ensures c.open(k, n, aad, c.seal(k, n, aad, m)) == Some(m)
  {
  }

  lemma OtherNonceFails(c: Cipher, k: Key, n: Nonce, other: Nonce, aad: seq<byte>, m: seq<byte>)
    requires BindsNonce(c) && n != other
    ensures c.open(k, other, aad, c.seal(k, n, aad, m)) == None
  {
  }

  // A cipher without secrecy that has both facts: the tag is the nonce. It shows that the
  // hypotheses can be met and serves the concrete counterexamples.
  function PlainSeal(k: Key, n: Nonce, aad: seq<byte>, m: seq<byte>): seq<byte>
  {
    m + n + [0, 0, 0, 0]
  }

  function PlainOpen(k: Key, n: Nonce, aad: seq<byte>, ct: seq<byte>): Option<seq<byte>>
  {
    if |ct| >= TAG_SIZE && ct[|ct| - TAG_SIZE..] == n + [0, 0, 0, 0] then Some(ct[..|ct| - TAG_SIZE]) else None
  }

  const PLAIN := Cipher((k, n, aad, m) => PlainSeal(k, n, aad, m), (k, n, aad, ct) => PlainOpen(k, n, aad, ct))

  lemma PlainIsIdeal()
    ensures Ideal(PLAIN)
  {
    forall k: Key, n: Nonce, other: Nonce, aad: seq<byte>, m: seq<byte>
      ensures |PlainSeal(k, n, aad, m)| == |m| + TAG_SIZE
      ensures PlainOpen(k, other, aad, PlainSeal(k, n, aad, m)) == if n == other then Some(m) else None
    {
      var ct := PlainSeal(k, n, aad, m);
      assert ct[|m|..] == n + [0, 0, 0, 0];
      assert ct[..|m|] == m;
      if n != other {
        assert (n + [0, 0, 0, 0])[..12] == n && (other + [0, 0, 0, 0])[..12] == other;
      }
    }
  }
}
