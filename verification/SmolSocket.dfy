// The contract of the smoltcp TCP socket that the bridge relies on.
module SmolSocket {
  import opened Bytes

  datatype TcpState =
    | ClosedState | Listen | SynSent | SynReceived | Established
    | FinWait1 | FinWait2 | CloseWait | ClosingState | LastAck | TimeWait

  // `unread` is what the peer sent and nobody has taken yet; `txRoom` the free space of the transmit buffer.
  datatype Sock = Sock(state: TcpState, unread: seq<byte>, txRoom: nat) {
    // A receive half that may still produce bytes: unread bytes keep it alive in any state.
    predicate MayRecv() { state in {Established, FinWait1, FinWait2} || unread != [] }

    predicate CanRecv() { MayRecv() && unread != [] }

    predicate CanSend() { state in {Established, CloseWait} && txRoom > 0 }

    function Close(): Sock {
      match state
      case Listen | SynSent => this.(state := ClosedState)
      case SynReceived | Established => this.(state := FinWait1)
      case CloseWait => this.(state := LastAck)
      case _ => this
    }

    function Abort(): Sock { this.(state := ClosedState) }
  }

  // Closing gives up sending and nothing else: what is unread stays, an open connection goes on
  // receiving what the peer has left to send, and one that was never opened is over.
  lemma CloseEndsSending(s: Sock)
    ensures var d := s.Close();
      && d.unread == s.unread && d.txRoom == s.txRoom && !d.CanSend()
      && (d.state == ClosedState <==> s.state in {ClosedState, Listen, SynSent})
      && (d.state in {FinWait1, FinWait2} <==> s.state in {SynReceived, Established, FinWait1, FinWait2})
      && (d.state == LastAck <==> s.state in {CloseWait, LastAck})
      && (s.state in {FinWait1, FinWait2, ClosingState, LastAck, TimeWait, ClosedState} ==> d == s)
  {
  }

  // States in which segments carrying data can still be accepted.
  predicate Receptive(st: TcpState)
  {
    st in {Listen, SynReceived, Established, FinWait1, FinWait2}
  }

  // An opening SYN, taken by a socket that listens for its destination; payload on it is ignored.
  predicate SynStep(before: Sock, after: Sock)
  {
    before.state == Listen && after == before.(state := SynReceived)
  }

  // Any other segment, given the bytes it delivered. A listening socket ignores it, a reset carries
  // no data and sends a connection that is still being opened back to listening.
  predicate SegmentStep(before: Sock, after: Sock, delivered: seq<byte>)
  {
    && after.unread == before.unread + delivered
    && (!Receptive(before.state) ==> delivered == [] && !Receptive(after.state))
    && (before.state in {Listen, ClosedState} ==> after == before)
    && (after.state == ClosedState ==> delivered == [])
    && (after.state == Listen ==> before.state in {Listen, SynReceived})
  }

  // Timeouts and the end of the time-wait period; a listening socket has neither.
  predicate TimerStep(before: Sock, after: Sock)
  {
    before.state != Listen && after == before.(state := ClosedState)
  }

  // What all three have in common.
  predicate PollStep(before: Sock, after: Sock, delivered: seq<byte>)
  {
    && after.unread == before.unread + delivered
    && (!Receptive(before.state) ==> delivered == [] && !Receptive(after.state))
    && (before.state == ClosedState ==> after.state == ClosedState)
  }

  // The socket as the worker holds it: a mutable object whose `recv` and `send` hand a contiguous
  // slice of the internal ring buffer to a closure and consume what the closure reports.
  class TcpSocket {
    var state: TcpState
    var unread: seq<byte>
    var txRoom: nat

    constructor (s: Sock)
      ensures View() == s
    {
      state, unread, txRoom := s.state, s.unread, s.txRoom;
    }

    function View(): Sock
      reads this
    {
      Sock(state, unread, txRoom)
    }

    method Close()
      modifies this
      ensures View() == old(View()).Close()
    {
      match state {
        case Listen => state := ClosedState;
        case SynSent => state := ClosedState;
        case SynReceived => state := FinWait1;
        case Established => state := FinWait1;
        case CloseWait => state := LastAck;
        case _ =>
      }
    }

    method Abort()
      modifies this
      ensures View() == old(View()).Abort()
    {
      state := ClosedState;
    }

    // `recv` up to the closure: an error, or a non-empty contiguous prefix of the unread bytes.
    method BeginRecv() returns (ok: bool, buffer: seq<byte>)
      requires View().CanRecv()
      ensures ok ==> buffer != [] && buffer <= unread
    {
      ok := *;
      var k: nat :| 1 <= k <= |unread|;
      buffer := unread[..k];
    }

    // `recv` after the closure reported `n` bytes taken.
    method EndRecv(n: nat)
      requires n <= |unread|
      modifies this
      ensures View() == old(View()).(unread := old(unread)[n..])
    {
      unread := unread[n..];
    }

    // `send` up to the closure: an error, or the size of a non-empty contiguous free region.
    method BeginSend() returns (ok: bool, room: nat)
      requires View().CanSend()
      ensures ok ==> 0 < room <= txRoom
    {
      ok := *;
      room :| 1 <= room <= txRoom;
    }

    // `send` after the closure reported `n` bytes written.
    method EndSend(n: nat)
      requires n <= txRoom
      modifies this
      ensures View() == old(View()).(txRoom := old(txRoom) - n)
    {
      txRoom := txRoom - n;
    }
  }
}
