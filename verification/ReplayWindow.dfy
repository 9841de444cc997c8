// The 64-packet replay window of a UDP session and the set it stands for.
module ReplayWindow {
  import opened Bytes

  function Pow2(n: nat): (p: nat)
    ensures p > 0
  {
    if n == 0 then 1 else 2 * Pow2(n - 1)
  }

  const WINDOW: u32 := 64

  type u64 = x: int | 0 <= x < 0x1_0000_0000_0000_0000

  // Bit `d` of an unsigned integer.
  predicate Bit(w: nat, d: nat)
  {
    if d == 0 then w % 2 == 1 else Bit(w / 2, d - 1)
  }

  lemma WidthOfU64()
    ensures Pow2(64) == 0x1_0000_0000_0000_0000
  {
    assert Pow2(8) == 256;
    assert Pow2(16) == 256 * Pow2(8);
    assert Pow2(24) == 256 * Pow2(16);
    assert Pow2(32) == 256 * Pow2(24);
    assert Pow2(40) == 256 * Pow2(32);
    assert Pow2(48) == 256 * Pow2(40);
    assert Pow2(56) == 256 * Pow2(48);
    assert Pow2(64) == 256 * Pow2(56);
  }

  // `w << s` on a u64: bits shifted past the top are lost.
  function ShiftLeft(w: u64, s: nat): u64
  {
    (w * Pow2(s)) % 0x1_0000_0000_0000_0000
  }

  // `w | (1 << d)`.
  function SetBit(w: u64, d: nat): u64
    requires d < 64
  {
    if Bit(w, d) then w else WidthOfU64(); SetBitFits(w, d, 64); w + Pow2(d)
  }

  lemma DoublesBelow(w: nat, p: nat, limit: nat)
    requires w / 2 + p < limit
    ensures w + 2 * p < 2 * limit
  {
  }

  lemma HalfBelow(w: nat, limit: nat)
    requires w < 2 * limit
    ensures w / 2 < limit && (w % 2 == 0 ==> w + 1 < 2 * limit)
  {
  }

  lemma {:induction false} SetBitFits(w: nat, d: nat, k: nat)
    requires w < Pow2(k) && d < k && !Bit(w, d)
    ensures w + Pow2(d) < Pow2(k)
  {
    HalfBelow(w, Pow2(k - 1));
    if d > 0 {
      SetBitFits(w / 2, d - 1, k - 1);
      DoublesBelow(w, Pow2(d - 1), Pow2(k - 1));
    }
  }

  lemma {:induction false} SetBitSets(w: nat, s: nat, d: nat)
    requires !Bit(w, s)
    ensures Bit(w + Pow2(s), d) <==> d == s || Bit(w, d)
  {
    if s > 0 {
      assert (w + Pow2(s)) / 2 == w / 2 + Pow2(s - 1);
      assert (w + Pow2(s)) % 2 == w % 2;
      if d > 0 {
        SetBitSets(w / 2, s - 1, d - 1);
      }
    } else {
      assert (w + 1) / 2 == w / 2;
    }
  }

  lemma MultipleExceeds(a: nat, b: nat, m: nat)
    requires a < b
    ensures b * m >= a * m + m
  {
    assert b * m == a * m + (b - a) * m;
    assert (b - a) * m == m + (b - a - 1) * m;
  }

  lemma DivMod(x: nat, m: nat)
    requires m > 0
    ensures x == (x / m) * m + x % m && 0 <= x % m < m
  {
  }

  lemma ModUnique(x: nat, q: nat, m: nat, r: nat)
    requires x == q * m + r && r < m
    ensures x % m == r
  {
    DivMod(x, m);
    if x / m < q {
      MultipleExceeds(x / m, q, m);
    } else if q < x / m {
      MultipleExceeds(q, x / m, m);
    }
  }

  lemma Doubles(q: nat, p: nat, m: nat)
    requires p == 2 * m
    ensures q * p == 2 * (q * m)
  {
  }

  lemma HalvesSum(x: nat, product: nat, r: nat)
    requires x == 2 * product + r
    ensures x / 2 == product + r / 2 && x % 2 == r % 2
  {
  }

  lemma HalfOfSum(x: nat, q: nat, r: nat, p: nat, m: nat)
    requires p == 2 * m && x == q * p + r && r < p
    ensures (x / 2) % m == r / 2 && x % 2 == r % 2
  {
    Doubles(q, p, m);
    HalvesSum(x, q * m, r);
    ModUnique(x / 2, q, m, r / 2);
  }

  lemma Quotient(x: nat, p: nat) returns (q: nat, r: nat)
    requires p > 0
    ensures x == q * p + r && r < p && r == x % p
  {
    q, r := x / p, x % p;
  }

  lemma HalfOfModAt(x: nat, p: nat, m: nat)
    requires p == 2 * m && m > 0
    ensures (x % p) / 2 == (x / 2) % m && (x % p) % 2 == x % 2
  {
    var q, r := Quotient(x, p);
    HalfOfSum(x, q, r, p, m);
  }

  lemma HalfOfMod(x: nat, k: nat)
    requires k > 0
    ensures (x % Pow2(k)) / 2 == (x / 2) % Pow2(k - 1)
    ensures (x % Pow2(k)) % 2 == x % 2
  {
    HalfOfModAt(x, Pow2(k), Pow2(k - 1));
  }

  lemma {:induction false} BitOfMod(x: nat, k: nat, d: nat)
    requires d < k
    ensures Bit(x % Pow2(k), d) <==> Bit(x, d)
  {
    HalfOfMod(x, k);
    if d > 0 {
      BitOfMod(x / 2, k - 1, d - 1);
    }
  }

  lemma {:induction false} BitOfProduct(w: nat, s: nat, d: nat)
    ensures Bit(w * Pow2(s), d) <==> d >= s && Bit(w, d - s)
  {
    if s > 0 {
      assert w * Pow2(s) == 2 * (w * Pow2(s - 1));
      if d > 0 {
        BitOfProduct(w, s - 1, d - 1);
      }
    }
  }

  lemma ShiftMovesBits(w: u64, s: nat, d: nat)
    requires d < 64
    ensures Bit(ShiftLeft(w, s), d) <==> d >= s && Bit(w, d - s)
  {
    WidthOfU64();
    BitOfMod(w * Pow2(s), 64, d);
    BitOfProduct(w, s, d);
  }

  lemma SetBitAdds(w: u64, s: nat, d: nat)
    requires s < 64
    ensures Bit(SetBit(w, s), d) <==> d == s || Bit(w, d)
  {
    if !Bit(w, s) {
      SetBitSets(w, s, d);
    }
  }

  // The receive half of a session counter.
  datatype Window = Window(highest: u32, bits: u64)

  const FRESH := Window(0, 0)

  function Accept(w: Window, id: u32): (bool, Window)
  {
    if id > w.highest then
      var shift := id - w.highest;
      (true, Window(id, if shift >= WINDOW then 1 else SetBit(ShiftLeft(w.bits, shift), 0)))
    else
      var diff := w.highest - id;
      if diff >= WINDOW || Bit(w.bits, diff) then (false, w)
      else (true, w.(bits := SetBit(w.bits, diff)))
  }

  // ---- The set the window stands for ----

  // Bit `d` is set exactly when `highest - d` was accepted, and `highest` is the largest accepted id.
  ghost predicate Represents(w: Window, accepted: set<u32>)
  {
    && (forall d: nat | d < 64 :: Bit(w.bits, d) <==> d <= w.highest && w.highest - d in accepted)
    && (forall id <- accepted :: id <= w.highest)
    && (w.highest == 0 || w.highest in accepted)
  }

  lemma {:induction false} NoBitOfZero(d: nat)
    ensures !Bit(0, d)
  {
    if d > 0 {
      NoBitOfZero(d - 1);
    }
  }

  lemma BitsOfOne(d: nat)
    ensures Bit(1, d) <==> d == 0
  {
    if d > 0 {
      NoBitOfZero(d - 1);
    }
  }

  lemma FreshRepresentsNothing()
    ensures Represents(FRESH, {})
  {
    forall d: nat | d < 64
      ensures !Bit(0, d)
    {
      NoBitOfZero(d);
    }
  }

  // One call: the verdict is the set's, and the new window stands for the new set.
  lemma AcceptRefinesSet(w: Window, accepted: set<u32>, id: u32)
    requires Represents(w, accepted)
    ensures var (isNew, next) := Accept(w, id);
      && (isNew <==> id > w.highest || (w.highest - id < 64 && id !in accepted))
      && Represents(next, if isNew then accepted + {id} else accepted)
  {
    var (isNew, next) := Accept(w, id);
    if id > w.highest {
      var shift := id - w.highest;
      forall d: nat | d < 64
        ensures Bit(next.bits, d) <==> d <= id && id - d in accepted + {id}
      {
        if shift >= WINDOW {
          BitsOfOne(d);
        } else {
          SetBitAdds(ShiftLeft(w.bits, shift), 0, d);
          ShiftMovesBits(w.bits, shift, d);
          if d >= shift {
            assert id - d == w.highest - (d - shift);
          }
        }
      }
    } else if isNew {
      var diff := w.highest - id;
      forall d: nat | d < 64
        ensures Bit(next.bits, d) <==> d <= w.highest && w.highest - d in accepted + {id}
      {
        SetBitAdds(w.bits, diff, d);
      }
    }
  }

  // ---- Whole sequences ----

  function After(ids: seq<u32>): Window
  {
    if ids == [] then FRESH else Accept(After(ids[..|ids| - 1]), ids[|ids| - 1]).1
  }

  predicate AcceptedAt(ids: seq<u32>, i: nat)
    requires i < |ids|
  {
    Accept(After(ids[..i]), ids[i]).0
  }

  ghost function AcceptedSet(ids: seq<u32>): set<u32>
  {
    if ids == [] then {}
    else
      var n := |ids| - 1;
      if AcceptedAt(ids, n) then AcceptedSet(ids[..n]) + {ids[n]} else AcceptedSet(ids[..n])
  }

  lemma {:induction false} AcceptedSetCollects(ids: seq<u32>, i: nat)
    requires i < |ids| && AcceptedAt(ids, i)
    ensures ids[i] in AcceptedSet(ids)
  {
    var n := |ids| - 1;
    if i < n {
      assert ids[..n][..i] == ids[..i];
      AcceptedSetCollects(ids[..n], i);
    }
  }

  lemma {:induction false} WindowRepresentsHistory(ids: seq<u32>)
    ensures Represents(After(ids), AcceptedSet(ids))
  {
    if ids == [] {
      FreshRepresentsNothing();
    } else {
      var n := |ids| - 1;
      WindowRepresentsHistory(ids[..n]);
      AcceptRefinesSet(After(ids[..n]), AcceptedSet(ids[..n]), ids[n]);
    }
  }

  // Acceptance, told by the history alone.
  lemma AcceptedExactly(ids: seq<u32>, id: u32)
    ensures var highest := After(ids).highest;
      Accept(After(ids), id).0 <==> id > highest || (highest - id < 64 && id !in AcceptedSet(ids))
  {
    WindowRepresentsHistory(ids);
    AcceptRefinesSet(After(ids), AcceptedSet(ids), id);
  }

  lemma NoIdAcceptedTwice(ids: seq<u32>, i: nat, j: nat)
    requires i < j < |ids| && AcceptedAt(ids, i) && AcceptedAt(ids, j)
    ensures ids[i] != ids[j]
  {
    var before := ids[..j];
    assert before[..i] == ids[..i];
    AcceptedSetCollects(before, i);
    WindowRepresentsHistory(before);
    AcceptedExactly(before, ids[j]);
  }

  // The counter itself, updated in place.
  class UdpSessionCounter {
    var txCounter: u32
    var rxHighest: u32
    var rxWindow: u64

    constructor ()
      ensures txCounter == 0 && View() == FRESH
    {
      txCounter, rxHighest, rxWindow := 0, 0, 0;
    }

    function View(): Window
      reads this
    {
      Window(rxHighest, rxWindow)
    }

    method NextTxId() returns (id: u32)
      modifies this`txCounter
      ensures id == old(txCounter) && txCounter == Wrap32(old(txCounter) + 1)
    {
      id := txCounter;
      txCounter := Wrap32(txCounter + 1);
    }

    method AcceptRx(packetId: u32) returns (isNew: bool)
      modifies this`rxHighest, this`rxWindow
      ensures (isNew, View()) == Accept(old(View()), packetId)
    {
      if packetId > rxHighest {
        var shift := packetId - rxHighest;
        if shift >= WINDOW {
          rxWindow := 1;
        } else {
          rxWindow := SetBit(ShiftLeft(rxWindow, shift), 0);
        }
        rxHighest := packetId;
        return true;
      }
      var diff := rxHighest - packetId;
      if diff >= WINDOW {
        return false;
      }
      if Bit(rxWindow, diff) {
        return false;
      }
      rxWindow := SetBit(rxWindow, diff);
      return true;
    }
  }
}
