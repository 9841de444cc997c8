// Flow control of one HTTP/2 stream (RFC 7540 section 6.9) under a relay that releases capacity
// only after the received chunk has been written out.
module FlowControl {
  import opened Bytes

  // The relay task: waiting for data, writing a chunk, or having written it and not yet released it.
  datatype Relay = Waiting | Writing(chunk: seq<byte>) | Written(len: nat) | Stopped(lost: seq<byte>)

  datatype State = State(
    credit: nat,             // what the sender may still send
    inFlight: seq<byte>,     // sent, not yet handed to the relay
    relay: Relay,
    released: nat,           // released, not yet announced
    updates: seq<nat>,       // WINDOW_UPDATE frames under way
    sent: seq<byte>, written: seq<byte>)

  function Start(window: nat): State
  {
    State(window, [], Waiting, 0, [], [], [])
  }

  datatype Step =
    | Send(data: seq<byte>)
    | TakeChunk(n: nat) | FinishWrite | FailWrite | Release
    | Announce(n: nat) | UpdateArrives

  predicate Enabled(s: State, e: Step)
  {
    match e
    case Send(data) => |data| <= s.credit
    case TakeChunk(n) => s.relay == Waiting && n <= |s.inFlight|
    case FinishWrite => s.relay.Writing?
    case FailWrite => s.relay.Writing?
    case Release => s.relay.Written?
    case Announce(n) => 0 < n <= s.released   // an increment of zero is a protocol error
    case UpdateArrives => s.updates != []
  }

  function Next(s: State, e: Step): State
    requires Enabled(s, e)
  {
    match e
    case Send(data) => s.(credit := s.credit - |data|, inFlight := s.inFlight + data, sent := s.sent + data)
    case TakeChunk(n) => s.(relay := Writing(s.inFlight[..n]), inFlight := s.inFlight[n..])
    case FinishWrite => s.(relay := Written(|s.relay.chunk|), written := s.written + s.relay.chunk)
    case FailWrite => s.(relay := Stopped(s.relay.chunk))
    case Release => s.(relay := Waiting, released := s.released + s.relay.len)
    case Announce(n) => s.(released := s.released - n, updates := s.updates + [n])
    case UpdateArrives => s.(credit := s.credit + s.updates[0], updates := s.updates[1..])
  }

  function Run(window: nat, es: seq<Step>): Option<State>
  {
    if es == [] then Some(Start(window))
    else
      var e, before := es[|es| - 1], Run(window, es[..|es| - 1]);
      if before.Some? && Enabled(before.value, e) then Some(Next(before.value, e)) else None
  }

  function Sum(ns: seq<nat>): nat
  {
    if ns == [] then 0 else ns[0] + Sum(ns[1..])
  }

  lemma {:induction false} SumAppend(ns: seq<nat>, n: nat)
    ensures Sum(ns + [n]) == Sum(ns) + n
  {
    if ns != [] {
      assert (ns + [n])[1..] == ns[1..] + [n];
      SumAppend(ns[1..], n);
    }
  }

  // Bytes the relay holds: taken and not written.
  function Held(r: Relay): seq<byte>
  {
    match r case Writing(chunk) => chunk case Stopped(lost) => lost case _ => []
  }

  function Unreleased(r: Relay): nat
  {
    match r case Waiting => 0 case Writing(chunk) => |chunk| case Written(len) => len case Stopped(lost) => |lost|
  }

  ghost predicate Inv(window: nat, s: State)
  {
    && s.credit + |s.inFlight| + Unreleased(s.relay) + s.released + Sum(s.updates) == window
    && s.sent == s.written + Held(s.relay) + s.inFlight
    && forall n <- s.updates :: n > 0
  }

  lemma StepKeeps(window: nat, s: State, e: Step)
    requires Inv(window, s) && Enabled(s, e)
    ensures Inv(window, Next(s, e))
  {
    match e
    case Send(data) =>
      assert s.sent + data == s.written + Held(s.relay) + (s.inFlight + data);
    case TakeChunk(n) =>
      assert s.inFlight == s.inFlight[..n] + s.inFlight[n..];
    case Announce(n) => SumAppend(s.updates, n);
    case UpdateArrives => assert forall n <- s.updates[1..] :: n in s.updates;
    case _ =>
  }

  lemma WithinWindow(window: nat, s: State)
    requires Inv(window, s)
    ensures s.written <= s.sent && |s.sent| - |s.written| <= window
  {
    assert s.sent == s.written + (Held(s.relay) + s.inFlight);
  }

  // The window is split, never exceeded: credit, bytes in flight, unreleased bytes and credit on its
  // way back always add up to it, so sent-but-unwritten bytes never exceed it; bytes keep their order.
  lemma {:induction false} WindowIsConserved(window: nat, es: seq<Step>)
    requires Run(window, es).Some?
    ensures var s := Run(window, es).value;
      && Inv(window, s)
      && s.written <= s.sent
      && |s.sent| - |s.written| <= window
  {
    if es != [] {
      WindowIsConserved(window, es[..|es| - 1]);
      StepKeeps(window, Run(window, es[..|es| - 1]).value, es[|es| - 1]);
    }
    WithinWindow(window, Run(window, es).value);
  }

  // A working step that brings a sender without its whole window closer to it.
  lemma SomeStepHelps(window: nat, s: State) returns (e: Step)
    requires Inv(window, s) && !s.relay.Stopped? && s.credit < window
    ensures Enabled(s, e) && !e.Send? && !e.FailWrite? && Distance(Next(s, e)) < Distance(s)
  {
    if s.updates != [] {
      e := UpdateArrives;
    } else if s.released > 0 {
      e := Announce(s.released);
    } else if s.relay.Written? {
      e := Release;
    } else if s.relay.Writing? {
      e := FinishWrite;
    } else {
      e := TakeChunk(|s.inFlight|);
    }
    DistanceFalls(s, e);
  }

  // How many steps the bytes on their way still need, at most.
  function Distance(s: State): nat
  {
    var held := match s.relay
      case Waiting => 0
      case Writing(chunk) => 6 * |chunk| + 2
      case Written(len) => 3 * len + 1
      case Stopped(_) => 0;
    10 * |s.inFlight| + held + 2 * s.released + |s.updates|
  }

  lemma DistanceFalls(s: State, e: Step)
    requires Enabled(s, e)
    requires match e
      case UpdateArrives => true
      case Announce(n) => n > 0
      case Release => true
      case FinishWrite => true
      case TakeChunk(n) => n > 0
      case _ => false
    ensures Distance(Next(s, e)) < Distance(s)
  {
  }

  function RunFrom(s: State, es: seq<Step>): Option<State>
    decreases |es|
  {
    if es == [] then Some(s)
    else if Enabled(s, es[0]) then RunFrom(Next(s, es[0]), es[1..])
    else None
  }

  lemma NothingUnderWay(window: nat, s: State)
    requires Inv(window, s) && s.credit == window
    ensures s.written == s.sent
  {
  }

  // The stream cannot stall for good while the relay lives: from every reachable state a number of
  // working steps, none of them a send, brings back the whole window and writes everything sent.
  lemma WindowComesBack(window: nat, s: State) returns (es: seq<Step>)
    requires Inv(window, s) && !s.relay.Stopped?
    ensures |es| <= Distance(s) && forall i :: 0 <= i < |es| ==> !es[i].Send? && !es[i].FailWrite?
    ensures RunFrom(s, es).Some?
    ensures var d := RunFrom(s, es).value; d.credit == window && d.written == d.sent == s.sent
    decreases Distance(s)
  {
    if s.credit == window {
      NothingUnderWay(window, s);
      es := [];
    } else {
      var e := SomeStepHelps(window, s);
      StepKeeps(window, s, e);
      var more := WindowComesBack(window, Next(s, e));
      es := [e] + more;
      assert es[1..] == more;
    }
  }

  // In particular, with nothing under way it has come back already.
  lemma QuiescentMeansWholeWindow(window: nat, es: seq<Step>)
    requires Run(window, es).Some? && !Run(window, es).value.relay.Stopped?
    requires var s := Run(window, es).value;
      s.inFlight == [] && s.relay == Waiting && s.released == 0 && s.updates == []
    ensures Run(window, es).value.credit == window && Run(window, es).value.written == Run(window, es).value.sent
  {
    WindowIsConserved(window, es);
  }
}
