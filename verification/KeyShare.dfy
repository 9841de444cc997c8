// Reading the server's X25519 key share out of a ServerHello body (RFC 8446 sections 4.1.3 and 4.2.8).
module KeyShare {
  import opened Bytes
  import opened ClientHello

  const KEY_LEN: nat := 32
  const RANDOM_END: nat := 34

  // `Panic` is an index out of bounds, which ends the thread in the original.
  datatype Outcome = Found(key: seq<byte>, suite: u16) | InvalidHandshake | MissingKeyShare | Panic

  function Word(s: seq<byte>, at: nat): u16
    requires at + 2 <= |s|
  {
    FromBE16(s[at..])
  }

  // ---- The function ----

  // The walk from `pos`, bounded by `end`. Lengths that run past the end stop it; a key is bounded by
  // the end of all extensions, not by that of its own; and the share's first four bytes are read
  // whether or not the body has them.
  function Walked(body: seq<byte>, pos: nat, end: nat, suite: u16): (outcome: Outcome)
    requires end <= |body|
    decreases end - pos
  {
    if pos + 4 > end then MissingKeyShare
    else
      var data, len := pos + 4, Word(body, pos + 2);
      if Word(body, pos) == KEY_SHARE && len >= 4 then
        if data + 4 > |body| then Panic
        else if Word(body, data) == X25519 && Word(body, data + 2) == KEY_LEN && data + 4 + KEY_LEN <= end then
          Found(body[data + 4..data + 4 + KEY_LEN], suite)
        else Walked(body, data + len, end, suite)
      else Walked(body, data + len, end, suite)
  }

  // Where the cipher suite stands, and the bounds of the extensions.
  function SuiteAt(body: seq<byte>): nat
    requires |body| > RANDOM_END
  {
    RANDOM_END + 1 + body[RANDOM_END] as int
  }

  predicate LengthsFit(body: seq<byte>)
    requires |body| > RANDOM_END
  {
    SuiteAt(body) + 5 <= |body| && SuiteAt(body) + 5 + Word(body, SuiteAt(body) + 3) <= |body|
  }

  function ExtensionsStart(body: seq<byte>): nat
    requires |body| > RANDOM_END
  {
    SuiteAt(body) + 5
  }

  function ExtensionsEnd(body: seq<byte>): nat
    requires |body| > RANDOM_END && LengthsFit(body)
  {
    SuiteAt(body) + 5 + Word(body, SuiteAt(body) + 3)
  }

  method ExtractServerKeyShare(body: seq<byte>) returns (outcome: Outcome)
    ensures |body| < RANDOM_END ==> outcome == InvalidHandshake
    ensures |body| == RANDOM_END ==> outcome == Panic
    ensures |body| > RANDOM_END ==>
      outcome == if !LengthsFit(body) then InvalidHandshake
                 else Walked(body, ExtensionsStart(body), ExtensionsEnd(body), Word(body, SuiteAt(body)))
  {
    if |body| < RANDOM_END {
      return InvalidHandshake;
    }
    var pos := RANDOM_END;
    if pos >= |body| {
      return Panic;
    }
    var sidLen: nat := body[pos];
    pos := pos + 1 + sidLen;
    if pos + 3 > |body| {
      return InvalidHandshake;
    }
    var suite := Word(body, pos);
    pos := pos + 3;
    if pos + 2 > |body| {
      return InvalidHandshake;
    }
    var extensionsLen: nat := Word(body, pos);
    pos := pos + 2;
    if pos + extensionsLen > |body| {
      return InvalidHandshake;
    }
    outcome := WalkExtensions(body, pos, pos + extensionsLen, suite);
  }

  // The loop of the same function.
  method WalkExtensions(body: seq<byte>, start: nat, extEnd: nat, suite: u16) returns (outcome: Outcome)
    requires extEnd <= |body|
    ensures outcome == Walked(body, start, extEnd, suite)
  {
    var pos := start;
    while pos + 4 <= extEnd
      invariant Walked(body, pos, extEnd, suite) == Walked(body, start, extEnd, suite)
      decreases extEnd - pos
    {
      var stop, next := ReadHeader(body, pos, extEnd, suite);
      if stop.Some? {
        return stop.value;
      }
      pos := next;
    }
    return MissingKeyShare;
  }

  // One turn of it: an outcome, or where to go on.
  method ReadHeader(body: seq<byte>, here: nat, extEnd: nat, suite: u16) returns (stop: Option<Outcome>, next: nat)
    requires here + 4 <= extEnd <= |body|
    ensures next >= here + 4
    ensures Walked(body, here, extEnd, suite) == if stop.Some? then stop.value else Walked(body, next, extEnd, suite)
  {
    var extType := Word(body, here);
    var extLen: nat := Word(body, here + 2);
    var pos := here + 4;
    stop, next := None, pos + extLen;
    if extType == KEY_SHARE && extLen >= 4 {
      if pos + 4 > |body| {
        return Some(Panic), next;
      }
      var group := Word(body, pos);
      var keyLen := Word(body, pos + 2);
      if group == X25519 && keyLen == KEY_LEN && pos + 4 + keyLen <= extEnd {
        stop := Some(Found(body[pos + 4..pos + 4 + KEY_LEN], suite));
      }
    }
  }

  // ---- What the walk means, in terms of extensions ----

  // The extension's own bytes name X25519 and a key of 32 bytes.
  predicate NamesKey(e: Extension)
  {
    e.etype == KEY_SHARE && |e.data| >= 4 && FromBE16(e.data) == X25519 && FromBE16(e.data[2..]) == KEY_LEN
  }

  // With `room` bytes from its header to the end of all extensions, it also leaves room for that key.
  predicate UsableIn(e: Extension, room: int)
  {
    NamesKey(e) && 8 + KEY_LEN <= room
  }

  predicate Sized(es: seq<Extension>)
  {
    forall i :: 0 <= i < |es| ==> |es[i].data| < 0x1_0000
  }

  // The bytes from `start` are these whole extensions, none of them a usable share, and end at `pos`.
  ghost predicate Passed(body: seq<byte>, start: nat, end: nat, es: seq<Extension>, pos: nat)
    requires start <= |body|
    decreases |es|
  {
    if es == [] then pos == start
    else
      var next := start + |Wire(es[0])|;
      && |es[0].data| < 0x1_0000 && !UsableIn(es[0], end - start)
      && next <= |body| && body[start..next] == Wire(es[0]) && Passed(body, next, end, es[1..], pos)
  }

  // A key-share header that claims at least four bytes, of which the body has fewer.
  predicate CutShareAt(body: seq<byte>, pos: nat, end: nat)
    requires end <= |body|
  {
    pos + 4 <= end && Word(body, pos) == KEY_SHARE && Word(body, pos + 2) >= 4 && |body| < pos + 8
  }

  // Reading one extension where it lies in the body.
  lemma ReadsExtension(body: seq<byte>, pos: nat, e: Extension, rest: seq<byte>)
    requires |e.data| < 0x1_0000 && pos <= |body| && body[pos..] == Wire(e) + rest
    ensures pos + 4 + |e.data| <= |body|
    ensures Word(body, pos) == e.etype && Word(body, pos + 2) == |e.data|
    ensures body[pos + 4..pos + 4 + |e.data|] == e.data && body[pos + 4 + |e.data|..] == rest
    ensures |e.data| >= 4 ==>
      Word(body, pos + 4) == FromBE16(e.data) && Word(body, pos + 6) == FromBE16(e.data[2..])
  {
    var tail := body[pos..];
    assert forall i :: 0 <= i < |tail| ==> tail[i] == body[pos + i];
    assert tail[4..4 + |e.data|] == e.data;
    assert tail[4 + |e.data|..] == rest;
    assert body[pos + 4..pos + 4 + |e.data|] == tail[4..4 + |e.data|];
    assert body[pos + 4 + |e.data|..] == tail[4 + |e.data|..];
    if |e.data| >= 4 {
      assert forall i :: 0 <= i < 4 ==> e.data[i] == body[pos + 4 + i];
    }
  }

  lemma PassesOne(body: seq<byte>, start: nat, end: nat, e: Extension, rest: seq<byte>, suite: u16)
    requires |e.data| < 0x1_0000 && start <= end <= |body| && body[start..] == Wire(e) + rest
    requires !UsableIn(e, end - start) && start + |Wire(e)| <= end
    ensures Walked(body, start, end, suite) == Walked(body, start + |Wire(e)|, end, suite)
  {
    ReadsExtension(body, start, e, rest);
  }

  lemma PassesFirst(body: seq<byte>, start: nat, end: nat, e: Extension, suite: u16)
    requires |e.data| < 0x1_0000 && !UsableIn(e, end - start) && start + |Wire(e)| <= end <= |body|
    requires body[start..start + |Wire(e)|] == Wire(e)
    ensures Walked(body, start, end, suite) == Walked(body, start + |Wire(e)|, end, suite)
  {
    assert body[start..] == body[start..start + |Wire(e)|] + body[start + |Wire(e)|..];
    PassesOne(body, start, end, e, body[start + |Wire(e)|..], suite);
  }

  lemma {:induction false} PassedAhead(body: seq<byte>, start: nat, end: nat, es: seq<Extension>, pos: nat)
    requires start <= |body| && Passed(body, start, end, es, pos)
    ensures start <= pos <= |body|
    decreases |es|
  {
    if es != [] {
      PassedAhead(body, start + |Wire(es[0])|, end, es[1..], pos);
    }
  }

  // The walk goes past extensions that offer nothing usable.
  lemma {:induction false} PassesAll(body: seq<byte>, start: nat, end: nat, es: seq<Extension>, pos: nat, suite: u16)
    requires start <= |body| && pos <= end <= |body| && Passed(body, start, end, es, pos)
    ensures Walked(body, start, end, suite) == Walked(body, pos, end, suite)
    decreases |es|
  {
    if es != [] {
      var next := start + |Wire(es[0])|;
      PassedAhead(body, next, end, es[1..], pos);
      PassesFirst(body, start, end, es[0], suite);
      PassesAll(body, next, end, es[1..], pos, suite);
    }
  }

  // Those bytes are the concatenated wire form of the extensions.
  lemma {:induction false} PassedMeans(body: seq<byte>, start: nat, end: nat, es: seq<Extension>, pos: nat)
    requires start <= |body| && Passed(body, start, end, es, pos)
    ensures start <= pos <= |body| && body[start..pos] == WireAll(es)
    decreases |es|
  {
    if es != [] {
      var next := start + |Wire(es[0])|;
      PassedMeans(body, next, end, es[1..], pos);
      assert body[start..pos] == body[start..next] + body[next..pos];
    }
  }

  // The extension the walk stands on, if it lies whole before the end.
  function ExtensionAt(body: seq<byte>, pos: nat): Extension
    requires pos + 4 <= |body| && pos + 4 + Word(body, pos + 2) <= |body|
  {
    Extension(Word(body, pos), body[pos + 4..pos + 4 + Word(body, pos + 2)])
  }

  lemma ExtensionAtLies(body: seq<byte>, pos: nat)
    requires pos + 4 <= |body| && pos + 4 + Word(body, pos + 2) <= |body|
    ensures var e := ExtensionAt(body, pos);
      |e.data| < 0x1_0000 && body[pos..pos + |Wire(e)|] == Wire(e) && |Wire(e)| == 4 + Word(body, pos + 2)
  {
    var e := ExtensionAt(body, pos);
    assert body[pos..][..2] == body[pos..pos + 2] && body[pos + 2..][..2] == body[pos + 2..pos + 4];
    BE16Surjective(body[pos..pos + 2]);
    BE16Surjective(body[pos + 2..pos + 4]);
    assert BE16(e.etype) == body[pos..pos + 2] && BE16(Truncate16(|e.data|)) == body[pos + 2..pos + 4];
    assert body[pos..pos + 4 + |e.data|] == body[pos..pos + 2] + body[pos + 2..pos + 4] + e.data;
  }

  // How a walk can stop: at a usable share, at one that is cut off, or with no room for a header or
  // for the extension under it.
  ghost predicate UsableShareAt(body: seq<byte>, pos: nat, end: nat)
    requires end <= |body|
  {
    && pos + 8 + KEY_LEN <= end && Word(body, pos) == KEY_SHARE && Word(body, pos + 2) >= 4
    && Word(body, pos + 4) == X25519 && Word(body, pos + 6) == KEY_LEN
  }

  ghost predicate NoRoomAt(body: seq<byte>, pos: nat, end: nat)
    requires end <= |body|
  {
    pos + 4 > end || pos + 4 + Word(body, pos + 2) > end
  }

  lemma {:induction false} WalkStops(body: seq<byte>, start: nat, end: nat) returns (es: seq<Extension>, pos: nat)
    requires start <= end <= |body|
    ensures Passed(body, start, end, es, pos) && pos <= end
    ensures UsableShareAt(body, pos, end) || CutShareAt(body, pos, end) || NoRoomAt(body, pos, end)
    decreases end - start
  {
    es, pos := [], start;
    if !UsableShareAt(body, start, end) && !CutShareAt(body, start, end) && !NoRoomAt(body, start, end) {
      var e := ExtensionAt(body, start);
      ExtensionAtLies(body, start);
      NotUsableHere(body, start, end, e);
      es, pos := WalkStops(body, start + |Wire(e)|, end);
      assert ([e] + es)[1..] == es;
      es := [e] + es;
    }
  }

  lemma NotUsableHere(body: seq<byte>, start: nat, end: nat, e: Extension)
    requires start <= end <= |body| && !UsableShareAt(body, start, end) && |e.data| < 0x1_0000
    requires start + |Wire(e)| <= end && body[start..start + |Wire(e)|] == Wire(e)
    ensures !UsableIn(e, end - start)
  {
    assert body[start..] == body[start..start + |Wire(e)|] + body[start + |Wire(e)|..];
    ReadsExtension(body, start, e, body[start + |Wire(e)|..]);
  }

  lemma StopsAt(body: seq<byte>, pos: nat, end: nat, suite: u16)
    requires end <= |body|
    ensures UsableShareAt(body, pos, end) ==>
      Walked(body, pos, end, suite) == Found(body[pos + 8..pos + 8 + KEY_LEN], suite)
    ensures CutShareAt(body, pos, end) ==> Walked(body, pos, end, suite) == Panic
    ensures !UsableShareAt(body, pos, end) && !CutShareAt(body, pos, end) && NoRoomAt(body, pos, end) ==>
      Walked(body, pos, end, suite) == MissingKeyShare
  {
  }

  ghost predicate PanicsWith(body: seq<byte>, es: seq<Extension>, pos: nat)
    requires |body| > RANDOM_END && LengthsFit(body)
  {
    Passed(body, ExtensionsStart(body), ExtensionsEnd(body), es, pos) && CutShareAt(body, pos, ExtensionsEnd(body))
  }

  ghost predicate FindsWith(body: seq<byte>, es: seq<Extension>, pos: nat)
    requires |body| > RANDOM_END && LengthsFit(body)
  {
    && Passed(body, ExtensionsStart(body), ExtensionsEnd(body), es, pos)
    && UsableShareAt(body, pos, ExtensionsEnd(body))
  }

  // For every body with a session id: reading it panics exactly if whole extensions without a usable
  // share are followed by a key-share header that claims at least four bytes where fewer are left, and
  // finds a key exactly if they are followed by a usable share. The bytes passed over are the wire form
  // of those extensions, back to back.
  lemma OutcomeExactly(body: seq<byte>, suite: u16)
    requires |body| > RANDOM_END && LengthsFit(body)
    ensures var outcome := Walked(body, ExtensionsStart(body), ExtensionsEnd(body), suite);
      && (outcome == Panic <==> exists es, pos: nat :: PanicsWith(body, es, pos))
      && (outcome.Found? <==> exists es, pos: nat :: FindsWith(body, es, pos))
      && (forall es, pos: nat :: FindsWith(body, es, pos) ==>
            outcome == Found(body[pos + 8..pos + 8 + KEY_LEN], suite))
      && (forall es, pos: nat :: PanicsWith(body, es, pos) || FindsWith(body, es, pos) ==>
            && ExtensionsStart(body) <= pos <= |body|
            && body[ExtensionsStart(body)..pos] == WireAll(es))
  {
    var start, end := ExtensionsStart(body), ExtensionsEnd(body);
    forall es, pos: nat | PanicsWith(body, es, pos)
      ensures Walked(body, start, end, suite) == Panic
    {
      PassesAll(body, start, end, es, pos, suite);
      StopsAt(body, pos, end, suite);
    }
    forall es, pos: nat | FindsWith(body, es, pos)
      ensures Walked(body, start, end, suite) == Found(body[pos + 8..pos + 8 + KEY_LEN], suite)
    {
      PassesAll(body, start, end, es, pos, suite);
      StopsAt(body, pos, end, suite);
    }
    forall es, pos: nat | PanicsWith(body, es, pos) || FindsWith(body, es, pos)
      ensures start <= pos <= |body| && body[start..pos] == WireAll(es)
    {
      PassedMeans(body, start, end, es, pos);
    }
    var es, pos := WalkStops(body, start, end);
    PassesAll(body, start, end, es, pos, suite);
    StopsAt(body, pos, end, suite);
    if UsableShareAt(body, pos, end) {
      assert FindsWith(body, es, pos);
    } else if CutShareAt(body, pos, end) {
      assert PanicsWith(body, es, pos);
    }
  }

  // ---- Well-formed bodies ----

  function ServerHello(random: seq<byte>, sid: seq<byte>, suite: u16, exts: seq<byte>): seq<byte>
    requires |random| == 32 && |sid| < 256
  {
    [0x03, 0x03] + random + [|sid|] + sid + BE16(suite) + [0x00] + Count16(exts)
  }

  lemma HelloLayout(random: seq<byte>, sid: seq<byte>, suite: u16, exts: seq<byte>)
    requires |random| == 32 && |sid| < 256 && |exts| < 0x1_0000
    ensures var body := ServerHello(random, sid, suite, exts);
      && |body| == 40 + |sid| + |exts| && body[40 + |sid|..] == exts
      && SuiteAt(body) == 35 + |sid| && Word(body, SuiteAt(body)) == suite
      && LengthsFit(body) && ExtensionsStart(body) == 40 + |sid| && ExtensionsEnd(body) == |body|
  {
    var body, at := ServerHello(random, sid, suite, exts), 35 + |sid|;
    var head := [0x03, 0x03] + random + [|sid|] + sid;
    assert body == head + (BE16(suite) + [0x00] + BE16(|exts|) + exts);
    assert body[at..] == BE16(suite) + [0x00] + BE16(|exts|) + exts;
    assert body[at + 3..] == BE16(|exts|) + exts;
    assert body[34] == head[34];
  }

  // A key share that names X25519 and brings a whole key.
  predicate Usable(e: Extension)
  {
    NamesKey(e) && |e.data| >= 4 + KEY_LEN
  }

  // Does not claim a key of 32 bytes for X25519 in fewer bytes than that needs.
  predicate Honest(es: seq<Extension>)
  {
    forall i :: 0 <= i < |es| ==> NamesKey(es[i]) ==> Usable(es[i])
  }

  function FirstKey(es: seq<Extension>): Option<seq<byte>>
  {
    if es == [] then None
    else if Usable(es[0]) then Some(es[0].data[4..4 + KEY_LEN])
    else FirstKey(es[1..])
  }

  function Answer(key: Option<seq<byte>>, suite: u16): Outcome
  {
    if key.Some? then Found(key.value, suite) else MissingKeyShare
  }

  lemma MeetsUsable(body: seq<byte>, pos: nat, e: Extension, rest: seq<byte>, suite: u16)
    requires Usable(e) && |e.data| < 0x1_0000 && pos <= |body| && body[pos..] == Wire(e) + rest
    ensures Walked(body, pos, |body|, suite) == Found(e.data[4..4 + KEY_LEN], suite)
  {
    ReadsExtension(body, pos, e, rest);
    UsableReads(body, pos, e);
    StopsAt(body, pos, |body|, suite);
  }

  lemma MeetsOther(body: seq<byte>, pos: nat, e: Extension, rest: seq<byte>, suite: u16)
    requires !NamesKey(e) && |e.data| < 0x1_0000 && pos <= |body| && body[pos..] == Wire(e) + rest
    ensures var next := pos + |Wire(e)|;
      next <= |body| && body[next..] == rest && Walked(body, pos, |body|, suite) == Walked(body, next, |body|, suite)
  {
    ReadsExtension(body, pos, e, rest);
    PassesOne(body, pos, |body|, e, rest, suite);
  }

  lemma {:induction false} WalkFindsFirst(body: seq<byte>, pos: nat, es: seq<Extension>, suite: u16)
    requires pos <= |body| && Sized(es) && body[pos..] == WireAll(es) && Honest(es)
    ensures Walked(body, pos, |body|, suite) == Answer(FirstKey(es), suite)
    decreases |es|
  {
    if es == [] {
      assert |body[pos..]| == 0;
    } else if Usable(es[0]) {
      MeetsUsable(body, pos, es[0], WireAll(es[1..]), suite);
    } else {
      MeetsOther(body, pos, es[0], WireAll(es[1..]), suite);
      WalkFindsFirst(body, pos + |Wire(es[0])|, es[1..], suite);
    }
  }

  lemma SliceOfSlice(s: seq<byte>, a: nat, b: nat, i: nat, j: nat)
    requires a <= b <= |s| && i <= j <= b - a
    ensures s[a..b][i..j] == s[a + i..a + j]
  {
    forall k | 0 <= k < j - i
      ensures s[a..b][i..j][k] == s[a + i..a + j][k]
    {
    }
    assert |s[a..b][i..j]| == |s[a + i..a + j]|;
  }

  lemma UsableReads(body: seq<byte>, pos: nat, e: Extension)
    requires Usable(e) && |e.data| < 0x1_0000 && pos + 4 + |e.data| <= |body|
    requires Word(body, pos) == e.etype && Word(body, pos + 2) == |e.data|
    requires Word(body, pos + 4) == FromBE16(e.data) && Word(body, pos + 6) == FromBE16(e.data[2..])
    requires body[pos + 4..pos + 4 + |e.data|] == e.data
    ensures UsableShareAt(body, pos, |body|) && body[pos + 8..pos + 8 + KEY_LEN] == e.data[4..4 + KEY_LEN]
  {
    var data := body[pos + 4..pos + 4 + |e.data|];
    assert data == e.data;
    SliceOfSlice(body, pos + 4, pos + 4 + |e.data|, 4, 4 + KEY_LEN);
    assert data[4..4 + KEY_LEN] == body[pos + 8..pos + 8 + KEY_LEN];
  }

  // For a well-formed body the first usable key share is found, with the cipher suite, whatever
  // precedes or follows it; without one the answer is that there is none.
  method ExtractFromHello(random: seq<byte>, sid: seq<byte>, suite: u16, es: seq<Extension>) returns (outcome: Outcome)
    requires |random| == 32 && |sid| < 256 && Sized(es) && |WireAll(es)| < 0x1_0000 && Honest(es)
    ensures outcome == Answer(FirstKey(es), suite)
  {
    var body := ServerHello(random, sid, suite, WireAll(es));
    HelloLayout(random, sid, suite, WireAll(es));
    WalkFindsFirst(body, 40 + |sid|, es, suite);
    outcome := ExtractServerKeyShare(body);
  }

  // A hello whose last extension is the header of a key share, four bytes claimed and none there.
  method CutShareMakesItPanic() returns (body: seq<byte>, outcome: Outcome)
    ensures body == ServerHello(Zeros(32), [], 0x1301, BE16(KEY_SHARE) + BE16(4)) && outcome == Panic
  {
    var exts := BE16(KEY_SHARE) + BE16(4);
    body := ServerHello(Zeros(32), [], 0x1301, exts);
    HelloLayout(Zeros(32), [], 0x1301, exts);
    assert body[40..] == exts && body[42..] == exts[2..] == BE16(4);
    StopsAt(body, 40, |body|, 0x1301);
    outcome := ExtractServerKeyShare(body);
  }
}
