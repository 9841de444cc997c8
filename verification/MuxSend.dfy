// Credit-driven sending on an HTTP/2 stream: two loops, one behaviour.
module MuxSend {
  import opened Bytes

  // What `poll_capacity` answers, and whether the following `send_data` is accepted.
  datatype Grant = Capacity(n: nat, accepted: bool) | Failed | Reset

  // `Blocked` is a send still waiting when the listed grants are used up.
  datatype Outcome = Done | Error | Blocked

  datatype Sending = Sending(pieces: seq<seq<byte>>, outcome: Outcome, left: seq<Grant>)

  function Send(chunk: seq<byte>, grants: seq<Grant>): Sending
    decreases |grants|
  {
    if chunk == [] then Sending([], Done, grants)
    else if grants == [] then Sending([], Blocked, [])
    else
      match grants[0]
      case Failed => Sending([], Error, grants[1..])
      case Reset => Sending([], Error, grants[1..])
      case Capacity(n, accepted) =>
        if n == 0 then Send(chunk, grants[1..])
        else if !accepted then Sending([], Error, grants[1..])
        else
          var w := Min(n, |chunk|);
          var more := Send(chunk[w..], grants[1..]);
          more.(pieces := [chunk[..w]] + more.pieces)
  }

  class SendStream {
    var grants: seq<Grant>
    var sent: seq<seq<byte>>

    constructor (grants: seq<Grant>)
      ensures this.grants == grants && sent == []
    {
      this.grants, sent := grants, [];
    }

    // `poll_capacity(..).await`; `None` if it never resolves.
    method PollCapacity() returns (g: Option<Grant>)
      modifies this`grants
      ensures old(grants) == [] ==> g == None && grants == []
      ensures old(grants) != [] ==> g == Some(old(grants)[0]) && grants == old(grants)[1..]
    {
      if grants == [] {
        return None;
      }
      g := Some(grants[0]);
      grants := grants[1..];
    }

    method SendData(bytes: seq<byte>)
      modifies this`sent
      ensures sent == old(sent) + [bytes]
    {
      sent := sent + [bytes];
    }

    // The inner loop of both senders: zero capacity means "not yet".
    method AwaitCapacity() returns (g: Option<Grant>)
      modifies this`grants
      ensures g.Some? && g.value.Capacity? ==> g.value.n > 0
      ensures forall chunk: seq<byte> | chunk != [] ::
                Send(chunk, old(grants)) ==
                  (if g == None then Sending([], Blocked, []) else Send(chunk, [g.value] + grants))
      ensures g == None ==> grants == []
    {
      g := PollCapacity();
      while g.Some? && g.value.Capacity? && g.value.n == 0
        invariant g == None ==> grants == []
        invariant forall chunk: seq<byte> | chunk != [] ::
                    Send(chunk, old(grants)) ==
                      (if g == None then Sending([], Blocked, []) else Send(chunk, [g.value] + grants))
        decreases |grants|, if g.Some? then 1 else 0
      {
        ghost var before := [g.value] + grants;
        assert before[1..] == grants;
        g := PollCapacity();
      }
    }

    // `send_chunk`: copies slices out of a borrowed buffer.
    method SendChunk(chunk: seq<byte>) returns (outcome: Outcome)
      modifies this
      ensures var s := Send(chunk, old(grants));
        outcome == s.outcome && sent == old(sent) + s.pieces && grants == s.left
    {
      var offset := 0;
      assert chunk[0..] == chunk;
      while offset < |chunk|
        invariant 0 <= offset <= |chunk|
        invariant var s := Send(chunk, old(grants)); var rest := Send(chunk[offset..], grants);
          s.outcome == rest.outcome && s.left == rest.left && old(sent) + s.pieces == sent + rest.pieces
      {
        var remaining := |chunk| - offset;
        var g := AwaitCapacity();
        if g.None? {
          return Blocked;
        }
        if !g.value.Capacity? || !g.value.accepted {
          return Error;
        }
        var writeSize := Min(g.value.n, remaining);
        assert ([g.value] + grants)[1..] == grants;
        assert chunk[offset..][..writeSize] == chunk[offset..offset + writeSize];
        assert chunk[offset..][writeSize..] == chunk[offset + writeSize..];
        SendData(chunk[offset..offset + writeSize]);
        offset := offset + writeSize;
      }
      assert chunk[offset..] == [];
      outcome := Done;
    }

    // `send_bytes`: splits an owned buffer from the front.
    method SendBytes(bytes: seq<byte>) returns (outcome: Outcome)
      modifies this
      ensures var s := Send(bytes, old(grants));
        outcome == s.outcome && sent == old(sent) + s.pieces && grants == s.left
    {
      var chunk := bytes;
      while chunk != []
        invariant var s := Send(bytes, old(grants)); var rest := Send(chunk, grants);
          s.outcome == rest.outcome && s.left == rest.left && old(sent) + s.pieces == sent + rest.pieces
        decreases |chunk|
      {
        var g := AwaitCapacity();
        if g.None? {
          return Blocked;
        }
        if !g.value.Capacity? || !g.value.accepted {
          return Error;
        }
        var writeSize := Min(g.value.n, |chunk|);
        assert ([g.value] + grants)[1..] == grants;
        SendData(chunk[..writeSize]);
        chunk := chunk[writeSize..];
      }
      outcome := Done;
    }
  }

  // ---- What both of them guarantee ----

  lemma {:induction false} PiecesConcatenate(chunk: seq<byte>, grants: seq<Grant>)
    ensures var s := Send(chunk, grants);
      && Concat(s.pieces) <= chunk
      && (s.outcome == Done <==> Concat(s.pieces) == chunk)
    decreases |grants|
  {
    if chunk != [] && grants != [] && grants[0].Capacity? {
      var w := Min(grants[0].n, |chunk|);
      if grants[0].n == 0 {
        PiecesConcatenate(chunk, grants[1..]);
      } else if grants[0].accepted {
        PiecesConcatenate(chunk[w..], grants[1..]);
        var more := Send(chunk[w..], grants[1..]).pieces;
        assert ([chunk[..w]] + more)[1..] == more;
        assert chunk == chunk[..w] + chunk[w..];
        assert Concat(more) == chunk[w..] <==> chunk[..w] + Concat(more) == chunk by {
          assert (chunk[..w] + Concat(more))[w..] == Concat(more);
        }
      }
    }
  }

  // The grants that can carry bytes, in order.
  function Usable(grants: seq<Grant>): seq<nat>
  {
    if grants == [] then []
    else if grants[0].Capacity? && grants[0].n > 0 then [grants[0].n] + Usable(grants[1..])
    else Usable(grants[1..])
  }

  lemma {:induction false} PiecesFitTheirGrants(chunk: seq<byte>, grants: seq<Grant>)
    ensures var pieces := Send(chunk, grants).pieces;
      && |pieces| <= |Usable(grants)|
      && forall i :: 0 <= i < |pieces| ==> 0 < |pieces[i]| <= Usable(grants)[i]
    decreases |grants|
  {
    if chunk != [] && grants != [] && grants[0].Capacity? {
      if grants[0].n == 0 {
        PiecesFitTheirGrants(chunk, grants[1..]);
      } else if grants[0].accepted {
        PiecesFitTheirGrants(chunk[Min(grants[0].n, |chunk|)..], grants[1..]);
      }
    }
  }

  // What the peer grants before the first failure.
  function Credit(grants: seq<Grant>): nat
  {
    if grants == [] || !grants[0].Capacity? || (grants[0].n > 0 && !grants[0].accepted) then 0
    else grants[0].n + Credit(grants[1..])
  }

  // Some grant fails, resets, or is refused when used.
  predicate HasFailure(grants: seq<Grant>)
  {
    exists i :: 0 <= i < |grants| && (!grants[i].Capacity? || (grants[i].n > 0 && !grants[i].accepted))
  }

  // A chunk that does not go out whole fails exactly if some grant does; else it still waits.
  lemma {:induction false} FailsExactly(chunk: seq<byte>, grants: seq<Grant>)
    ensures var outcome := Send(chunk, grants).outcome;
      && (outcome == Error <==> |chunk| > Credit(grants) && HasFailure(grants))
      && (outcome == Blocked <==> |chunk| > Credit(grants) && !HasFailure(grants))
      && (outcome == Blocked ==> Send(chunk, grants).left == [])
    decreases |grants|
  {
    if grants != [] {
      var g, rest := grants[0], grants[1..];
      assert forall i :: 0 <= i < |rest| ==> rest[i] == grants[i + 1];
      assert forall i :: 1 <= i < |grants| ==> grants[i] == rest[i - 1];
      if chunk != [] && g.Capacity? {
        if g.n == 0 {
          FailsExactly(chunk, rest);
        } else if g.accepted {
          FailsExactly(chunk[Min(g.n, |chunk|)..], rest);
        }
      }
    }
  }

  // A chunk goes out whole exactly when the credit before the first failure covers it.
  lemma {:induction false} CompletesExactly(chunk: seq<byte>, grants: seq<Grant>)
    ensures Send(chunk, grants).outcome == Done <==> |chunk| <= Credit(grants)
    decreases |grants|
  {
    if chunk != [] && grants != [] && grants[0].Capacity? {
      if grants[0].n == 0 {
        CompletesExactly(chunk, grants[1..]);
      } else if grants[0].accepted {
        CompletesExactly(chunk[Min(grants[0].n, |chunk|)..], grants[1..]);
      }
    }
  }
}
