// Bytes, big-endian integers and the byte-wise XOR shared by every wire format.
module Bytes {
  type byte = x: int | 0 <= x < 256
  type u16 = x: int | 0 <= x < 0x1_0000
  type u32 = x: int | 0 <= x < 0x1_0000_0000

  datatype Option<+T> = None | Some(value: T)

  datatype Result<+T, +E> = Ok(value: T) | Err(error: E)

  function Min(a: int, b: int): (m: int)
  {
    if a <= b then a else b
  }

  // `x as u16` on a wider unsigned integer.
  function Truncate16(x: nat): u16 { x % 0x1_0000 }

  function Wrap32(x: nat): u32 { x % 0x1_0000_0000 }

  // Wrapping at every step or once at the end is the same.
  lemma WrapNext32(x: nat)
    ensures Wrap32(Wrap32(x) + 1) == Wrap32(x + 1)
  {
    var q, r := x / 0x1_0000_0000, x % 0x1_0000_0000;
    assert x == q * 0x1_0000_0000 + r;
    if r + 1 == 0x1_0000_0000 {
      assert x + 1 == (q + 1) * 0x1_0000_0000;
    } else {
      assert x + 1 == q * 0x1_0000_0000 + (r + 1);
    }
  }

  lemma WrapNext16(x: nat)
    ensures Truncate16(Truncate16(x) + 1) == Truncate16(x + 1)
  {
    var q, r := x / 0x1_0000, x % 0x1_0000;
    assert x == q * 0x1_0000 + r;
    if r + 1 == 0x1_0000 {
      assert x + 1 == (q + 1) * 0x1_0000;
    } else {
      assert x + 1 == q * 0x1_0000 + (r + 1);
    }
  }

  function BE16(x: u16): (s: seq<byte>)
    ensures |s| == 2
  {
    [x / 256, x % 256]
  }

  function FromBE16(s: seq<byte>): u16
    requires |s| >= 2
  {
    (s[0] as int) * 256 + s[1]
  }

  // The 24-bit length of an HTTP/2 frame or a TLS handshake message; higher bits are shifted out.
  function BE24(x: nat): (s: seq<byte>)
    ensures |s| == 3
  {
    [x / 0x1_0000 % 256, x / 256 % 256, x % 256]
  }

  function FromBE24(s: seq<byte>): (n: nat)
    requires |s| >= 3
    ensures n < 0x100_0000
  {
    (s[0] as int) * 0x1_0000 + (s[1] as int) * 256 + s[2]
  }

  function BE32(x: u32): (s: seq<byte>)
    ensures |s| == 4
  {
    BE16(x / 0x1_0000) + BE16(x % 0x1_0000)
  }

  function FromBE32(s: seq<byte>): u32
    requires |s| >= 4
  {
    FromBE16(s) * 0x1_0000 + FromBE16(s[2..])
  }

  // The most significant byte comes first.
  lemma BigEndian(x: u16, y: u32, z: nat)
    requires z < 0x100_0000
    ensures BE16(x)[0] as int * 0x100 + BE16(x)[1] == x
    ensures BE24(z)[0] as int * 0x1_0000 + BE24(z)[1] as int * 0x100 + BE24(z)[2] == z
    ensures BE32(y)[0] as int * 0x100_0000 + BE32(y)[1] as int * 0x1_0000 + BE32(y)[2] as int * 0x100 + BE32(y)[3] == y
  {
    assert BE32(y)[0] == BE16(y / 0x1_0000)[0] && BE32(y)[1] == BE16(y / 0x1_0000)[1];
    assert BE32(y)[2] == BE16(y % 0x1_0000)[0] && BE32(y)[3] == BE16(y % 0x1_0000)[1];
  }

  lemma BE16RoundTrip(x: u16, rest: seq<byte>)
    ensures FromBE16(BE16(x) + rest) == x
  {
  }

  lemma BE16Surjective(s: seq<byte>)
    requires |s| == 2
    ensures BE16(FromBE16(s)) == s
  {
  }

  lemma BE24RoundTrip(x: nat, rest: seq<byte>)
    requires x < 0x100_0000
    ensures FromBE24(BE24(x) + rest) == x
  {
  }

  lemma BE32RoundTrip(x: u32, rest: seq<byte>)
    ensures FromBE32(BE32(x) + rest) == x
  {
    assert (BE32(x) + rest)[2..] == BE16(x % 0x1_0000) + rest;
    assert BE32(x) + rest == BE16(x / 0x1_0000) + (BE16(x % 0x1_0000) + rest);
    BE16RoundTrip(x / 0x1_0000, BE16(x % 0x1_0000) + rest);
    BE16RoundTrip(x % 0x1_0000, rest);
  }

  lemma BE32Injective(x: u32, y: u32)
    requires BE32(x) == BE32(y)
    ensures x == y
  {
    BE32RoundTrip(x, []);
    BE32RoundTrip(y, []);
  }

  lemma BE32Surjective(s: seq<byte>)
    requires |s| == 4
    ensures BE32(FromBE32(s)) == s
  {
    assert s == s[..2] + s[2..];
    BE16Surjective(s[..2]);
    BE16Surjective(s[2..]);
  }

  function Xor(a: byte, b: byte): byte
  {
    ((a as bv8) ^ (b as bv8)) as int
  }

  lemma CastRoundTrip(v: bv8)
    ensures 0 <= v as int < 256
    ensures (v as int) as bv8 == v
  {
  }

  lemma CastSuccessor(v: bv8)
    requires v != 255
    ensures (v + 1) as int == v as int + 1
  {
  }

  lemma {:induction false} BitsOfByte(a: byte) returns (v: bv8)
    ensures v as int == a
  {
    if a == 0 {
      v := 0;
    } else {
      v := BitsOfByte(a - 1);
      CastSuccessor(v);
      v := v + 1;
    }
  }

  lemma IntRoundTrip(a: byte)
    ensures (a as bv8) as int == a
  {
    var v := BitsOfByte(a);
    CastRoundTrip(v);
  }

  lemma XorCancels8(x: bv8, y: bv8)
    ensures (x ^ y) ^ y == x
  {
  }

  lemma XorCancels(a: byte, b: byte)
    ensures Xor(Xor(a, b), b) == a
  {
    CastRoundTrip((a as bv8) ^ (b as bv8));
    XorCancels8(a as bv8, b as bv8);
    IntRoundTrip(a);
  }

  lemma XorInjective(a: byte, b: byte, k: byte)
    requires Xor(a, k) == Xor(b, k)
    ensures a == b
  {
    XorCancels(a, k);
    XorCancels(b, k);
  }

  lemma XorZero8(x: bv8)
    ensures x ^ 0 == x && 0 ^ x == x && x ^ x == 0
  {
  }

  // Nothing is masked by zero, and only equal bytes mask each other out.
  lemma XorZero(a: byte, b: byte)
    ensures Xor(a, 0) == a && Xor(0, a) == a
    ensures Xor(a, b) == 0 <==> a == b
  {
    IntRoundTrip(a);
    XorZero8(a as bv8);
    XorCancels(a, b);
    XorZero8(b as bv8);
    IntRoundTrip(b);
  }

  function Zeros(n: nat): (s: seq<byte>)
    ensures |s| == n && forall i :: 0 <= i < n ==> s[i] == 0
  {
    seq(n, _ => 0)
  }

  // The concatenation of a list of chunks.
  function Concat<T>(parts: seq<seq<T>>): seq<T>
  {
    if parts == [] then [] else parts[0] + Concat(parts[1..])
  }

  lemma {:induction false} ConcatAppend<T>(a: seq<seq<T>>, b: seq<seq<T>>)
    ensures Concat(a + b) == Concat(a) + Concat(b)
  {
    if a == [] {
      assert a + b == b;
    } else {
      assert (a + b)[1..] == a[1..] + b;
      ConcatAppend(a[1..], b);
    }
  }

  lemma ConcatSnoc<T>(a: seq<seq<T>>, last: seq<T>)
    ensures Concat(a + [last]) == Concat(a) + last
  {
    ConcatAppend(a, [last]);
    assert Concat([last]) == last + Concat<T>([]);
  }
}
