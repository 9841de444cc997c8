// The per-connection control block of the TUN TCP bridge: the stream calls and the worker's scan.
module TcpControl {
  import opened Bytes
  import opened SmolSocket

  // Both ring buffers hold one megabyte.
  const CAPACITY: nat := 1024 * 1024

  datatype HalfState = Normal | Close | Closing | Closed

  // A waker is known only by the task it wakes.
  type Task = nat

  datatype Control = Control(
    sendBuffer: seq<byte>, sendWaker: Option<Task>,
    recvBuffer: seq<byte>, recvWaker: Option<Task>,
    recvState: HalfState, sendState: HalfState)

  const NEW_CONTROL := Control([], None, [], None, Normal, Normal)

  datatype Reply = Pending | Bytes(data: seq<byte>) | Wrote(n: nat) | BrokenPipe | Done

  // What a stream call leaves behind: the control block, its answer, the wakers it fired and
  // whether it left a notify permit for the worker.
  datatype Effect = Effect(ctl: Control, reply: Reply, wokeRecv: set<Task>, wokeSend: set<Task>, notified: bool)

  // `replace` wakes the waker it displaces unless that one wakes the same task.
  function Displaced(previous: Option<Task>, task: Task): set<Task>
  {
    if previous.Some? && previous.value != task then {previous.value} else {}
  }

  function Fired(w: Option<Task>): set<Task>
  {
    if w.Some? then {w.value} else {}
  }

  function PollRead(c: Control, task: Task, room: nat): Effect
  {
    if c.recvBuffer == [] then
      if c.recvState == Closed then Effect(c, Bytes([]), {}, {}, false)
      else Effect(c.(recvWaker := Some(task)), Pending, Displaced(c.recvWaker, task), {}, false)
    else
      var n := Min(room, |c.recvBuffer|);
      Effect(c.(recvBuffer := c.recvBuffer[n..]), Bytes(c.recvBuffer[..n]), {}, {}, n > 0)
  }

  function PollWrite(c: Control, task: Task, data: seq<byte>): Effect
  {
    if c.sendState != Normal then Effect(c, BrokenPipe, {}, {}, false)
    else if |c.sendBuffer| >= CAPACITY then
      Effect(c.(sendWaker := Some(task)), Pending, {}, Displaced(c.sendWaker, task), false)
    else
      var n := Min(|data|, CAPACITY - |c.sendBuffer|);
      Effect(c.(sendBuffer := c.sendBuffer + data[..n]), Wrote(n), {}, {}, n > 0)
  }

  function PollShutdown(c: Control, task: Task): Effect
  {
    if c.sendState == Closed then Effect(c, Done, {}, {}, false)
    else
      var c' := c.(sendState := if c.sendState == Normal then Close else c.sendState, sendWaker := Some(task));
      Effect(c', Pending, {}, Displaced(c.sendWaker, task), true)
  }

  function DropStream(c: Control): Effect
  {
    var c' := c.(recvState := if c.recvState == Normal then Close else c.recvState,
                 sendState := if c.sendState == Normal then Close else c.sendState);
    Effect(c', Done, {}, {}, true)
  }

  // What a reader gets: with bytes buffered the first of them, as many as fit, and the worker is told
  // of the room; without, the end of file if the half is closed, else a place in line.
  lemma ReadAnswers(c: Control, task: Task, room: nat)
    ensures var e := PollRead(c, task, room);
      && e.ctl == c.(recvBuffer := e.ctl.recvBuffer, recvWaker := e.ctl.recvWaker) && e.wokeSend == {}
      && (c.recvBuffer != [] ==>
            && e.reply.Bytes? && |e.reply.data| == Min(room, |c.recvBuffer|)
            && e.reply.data + e.ctl.recvBuffer == c.recvBuffer
            && e.ctl.recvWaker == c.recvWaker && e.wokeRecv == {}
            && (e.notified <==> room > 0))
      && (c.recvBuffer == [] ==>
            && e.ctl.recvBuffer == [] && !e.notified
            && (e.reply == Bytes([]) <==> c.recvState == Closed)
            && (c.recvState == Closed ==> e.ctl.recvWaker == c.recvWaker)
            && (c.recvState != Closed ==>
                  && e.reply == Pending && e.ctl.recvWaker == Some(task)
                  && (forall t :: c.recvWaker == Some(t) && t != task <==> t in e.wokeRecv)))
  {
  }

  // What a writer gets: refusal exactly once the half has left Normal, a place in line exactly while
  // the buffer is full, else as many bytes accepted as fit.
  lemma WriteAnswers(c: Control, task: Task, data: seq<byte>)
    requires |c.sendBuffer| <= CAPACITY
    ensures var e := PollWrite(c, task, data);
      && e.ctl == c.(sendBuffer := e.ctl.sendBuffer, sendWaker := e.ctl.sendWaker) && e.wokeRecv == {}
      && (e.reply == BrokenPipe <==> c.sendState != Normal)
      && (e.reply == Pending <==> c.sendState == Normal && |c.sendBuffer| == 1_048_576)
      && (e.reply == Pending ==>
            && e.ctl.sendBuffer == c.sendBuffer && e.ctl.sendWaker == Some(task) && !e.notified
            && (forall t :: c.sendWaker == Some(t) && t != task <==> t in e.wokeSend))
      && (e.reply != Pending ==> e.ctl.sendWaker == c.sendWaker && e.wokeSend == {})
      && (e.reply == BrokenPipe ==> e.ctl == c && !e.notified)
      && (c.sendState == Normal && |c.sendBuffer| < 1_048_576 ==>
            && e.reply == Wrote(Min(|data|, 1_048_576 - |c.sendBuffer|))
            && e.ctl.sendBuffer == c.sendBuffer + data[..e.reply.n]
            && (e.notified <==> data != []))
  {
  }

  // Shutting down is done once the half is closed; until then it is asked for, and waited for.
  lemma ShutdownAnswers(c: Control, task: Task)
    ensures var e := PollShutdown(c, task);
      && e.ctl == c.(sendState := e.ctl.sendState, sendWaker := e.ctl.sendWaker) && e.wokeRecv == {}
      && (c.sendState == Closed ==> e.reply == Done && e.ctl == c && e.wokeSend == {} && !e.notified)
      && (c.sendState != Closed ==>
            && e.reply == Pending && e.notified && e.ctl.sendWaker == Some(task)
            && (c.sendState == Normal ==> e.ctl.sendState == Close)
            && (c.sendState != Normal ==> e.ctl.sendState == c.sendState)
            && (forall t :: c.sendWaker == Some(t) && t != task <==> t in e.wokeSend))
  {
  }

  // Dropping gives up both halves, wakes nobody and always calls the worker.
  lemma DropAnswers(c: Control)
    ensures var e := DropStream(c);
      && e.ctl == c.(sendState := e.ctl.sendState, recvState := e.ctl.recvState)
      && e.notified && e.wokeRecv == e.wokeSend == {}
      && (c.sendState == Normal ==> e.ctl.sendState == Close)
      && (c.sendState != Normal ==> e.ctl.sendState == c.sendState)
      && (c.recvState == Normal ==> e.ctl.recvState == Close)
      && (c.recvState != Normal ==> e.ctl.recvState == c.recvState)
  {
  }

  // One visit of the worker to one connection, with the lock held throughout. A fault `Some(k)` means
  // that the socket reported an error after `k` bytes of that direction had been moved.
  datatype Visit = Visit(
    ctl: Control, sock: Sock, wokeRecv: set<Task>, wokeSend: set<Task>,
    reaped: bool, finSent: bool, received: seq<byte>, handed: seq<byte>)

  function Receivable(c: Control, s: Sock): nat
  {
    if |c.recvBuffer| >= CAPACITY then 0 else Min(|s.unread|, CAPACITY - |c.recvBuffer|)
  }

  function Sendable(c: Control, s: Sock): nat
  {
    if s.CanSend() then Min(|c.sendBuffer|, s.txRoom) else 0
  }

  predicate FaultFits(fault: Option<nat>, movable: nat)
  {
    fault.Some? ==> fault.value < movable
  }

  function Moved(fault: Option<nat>, movable: nat): nat
  {
    if fault.Some? then fault.value else movable
  }

  predicate ShouldClose(c: Control) { c.sendState == Close && c.sendBuffer == [] }

  // After the close check: the control block and socket the drain loops work on.
  function AfterClose(c: Control, s: Sock): (Control, Sock)
  {
    if ShouldClose(c) then (c.(sendState := Closing), s.Close()) else (c, s)
  }

  // After the receive loop, before the half-close check.
  function AfterRecv(c: Control, s: Sock, fault: Option<nat>): (Control, Sock)
    requires FaultFits(fault, Receivable(c, s))
  {
    var n := Moved(fault, Receivable(c, s));
    var c1 := c.(recvBuffer := c.recvBuffer + s.unread[..n]);
    var s1 := s.(unread := s.unread[n..]);
    if fault.Some? then
      (c1.(recvState := if c1.recvState == Normal then Closed else c1.recvState), s1.Abort())
    else (c1, s1)
  }

  predicate PeerFinished(c: Control, s: Sock)
  {
    c.recvState == Normal && !s.MayRecv() && !Receptive(s.state)
  }

  // After the half-close check and the receiver's wake-up.
  function AfterHalfClose(c: Control, s: Sock, moved: bool): (Control, set<Task>)
  {
    var c1 := if PeerFinished(c, s) then c.(recvState := Closed) else c;
    if moved || PeerFinished(c, s) then (c1.(recvWaker := None), Fired(c1.recvWaker)) else (c1, {})
  }

  function AfterSend(c: Control, s: Sock, fault: Option<nat>): (Control, Sock, set<Task>)
    requires FaultFits(fault, Sendable(c, s))
  {
    var n := Moved(fault, Sendable(c, s));
    var c1 := c.(sendBuffer := c.sendBuffer[n..]);
    var s1 := s.(txRoom := s.txRoom - n);
    var c2 := if fault.Some? && c1.sendState == Normal then c1.(sendState := Closed) else c1;
    var s2 := if fault.Some? then s1.Abort() else s1;
    if n > 0 || fault.Some? then (c2.(sendWaker := None), s2, Fired(c2.sendWaker)) else (c2, s2, {})
  }

  // The drained connection on which the send loop works.
  function BeforeSend(c: Control, s: Sock, recvFault: Option<nat>): (Control, Sock, set<Task>)
    requires FaultFits(recvFault, Receivable(c, s))
  {
    var (c1, s1) := AfterClose(c, s);
    var (c2, s2) := AfterRecv(c1, s1, recvFault);
    var moved := Moved(recvFault, Receivable(c, s)) > 0 || recvFault.Some?;
    var (c3, woke) := AfterHalfClose(c2, s2, moved);
    (c3, s2, woke)
  }

  predicate FaultsFit(c: Control, s: Sock, recvFault: Option<nat>, sendFault: Option<nat>)
  {
    s.state != ClosedState ==>
      && FaultFits(recvFault, Receivable(c, s))
      && var (c3, s3, _) := BeforeSend(c, s, recvFault);
         FaultFits(sendFault, Sendable(c3, s3))
  }

  function Scan(c: Control, s: Sock, recvFault: Option<nat>, sendFault: Option<nat>): Visit
    requires FaultsFit(c, s, recvFault, sendFault)
  {
    if s.state == ClosedState then
      Visit(c.(sendState := Closed, recvState := Closed, sendWaker := None, recvWaker := None), s,
            Fired(c.recvWaker), Fired(c.sendWaker), true, false, [], [])
    else
      var (c3, s3, wokeRecv) := BeforeSend(c, s, recvFault);
      var (c4, s4, wokeSend) := AfterSend(c3, s3, sendFault);
      Visit(c4, s4, wokeRecv, wokeSend, false, ShouldClose(c),
            s.unread[..Moved(recvFault, Receivable(c, s))],
            c.sendBuffer[..Moved(sendFault, Sendable(c3, s3))])
  }

  // What the receiving half of a visit amounts to.
  lemma ReceiveSide(c: Control, s: Sock, fault: Option<nat>)
    requires FaultFits(fault, Receivable(c, s))
    ensures var n := Moved(fault, Receivable(c, s));
      var (c3, s3, woke) := BeforeSend(c, s, fault);
      && c3.sendBuffer == c.sendBuffer && c3.sendWaker == c.sendWaker
      && c3.sendState == (if ShouldClose(c) then Closing else c.sendState)
      && c3.recvBuffer == c.recvBuffer + s.unread[..n] && s3.unread == s.unread[n..]
      && s3.txRoom == s.txRoom
      && s3.state == (if fault.Some? then ClosedState else if ShouldClose(c) then s.Close().state else s.state)
      && (c3.recvState != c.recvState ==> c.recvState == Normal && c3.recvState == Closed)
      && (c.recvState == Normal ==>
           (c3.recvState == Closed <==> fault.Some? || (!s3.MayRecv() && !Receptive(s3.state))))
      && (if n > 0 || fault.Some? || c3.recvState != c.recvState
          then c3.recvWaker == None && woke == Fired(c.recvWaker)
          else c3.recvWaker == c.recvWaker && woke == {})
  {
  }

  // What the sending half of a visit amounts to.
  lemma SendSide(c: Control, s: Sock, fault: Option<nat>)
    requires FaultFits(fault, Sendable(c, s))
    ensures var n := Moved(fault, Sendable(c, s));
      var (c4, s4, woke) := AfterSend(c, s, fault);
      && c4.recvBuffer == c.recvBuffer && c4.recvWaker == c.recvWaker && c4.recvState == c.recvState
      && c4.sendBuffer == c.sendBuffer[n..] && s4.txRoom == s.txRoom - n && s4.unread == s.unread
      && s4.state == (if fault.Some? then ClosedState else s.state)
      && c4.sendState == (if fault.Some? && c.sendState == Normal then Closed else c.sendState)
      && (if n > 0 || fault.Some? then c4.sendWaker == None && woke == Fired(c.sendWaker)
          else c4.sendWaker == c.sendWaker && woke == {})
  {
  }

  // A visit that moved `n` bytes in and `m` bytes out of an open socket, field by field.
  ghost predicate ScannedBytes(c: Control, s: Sock, v: Visit, n: nat, m: nat)
  {
    && n <= |s.unread| && m <= |c.sendBuffer| && !v.reaped
    && v.received == s.unread[..n] && v.handed == c.sendBuffer[..m] && v.finSent == ShouldClose(c)
    && v.ctl.recvBuffer == c.recvBuffer + s.unread[..n] && v.sock.unread == s.unread[n..]
    && v.ctl.sendBuffer == c.sendBuffer[m..]
  }

  ghost predicate ScannedStates(c: Control, s: Sock, v: Visit, recvFault: bool, sendFault: bool, m: nat)
  {
    && v.ctl.sendState == (if ShouldClose(c) then Closing
                           else if sendFault && c.sendState == Normal then Closed else c.sendState)
    && (v.ctl.recvState == c.recvState || (c.recvState == Normal && v.ctl.recvState == Closed))
    && (v.ctl.recvState != c.recvState && !recvFault ==> v.sock.unread == [] && !Receptive(v.sock.state))
    && (recvFault && c.recvState == Normal ==> v.ctl.recvState == Closed)
    && (!recvFault && !sendFault && c.recvState == Normal && v.sock.unread == [] && !Receptive(v.sock.state) ==>
          v.ctl.recvState == Closed)
    && v.sock.state == (if recvFault || sendFault then ClosedState
                        else if ShouldClose(c) then s.Close().state else s.state)
    && (recvFault ==> v.sock.unread != [])
    && (sendFault ==> c.sendBuffer != [])
    && (m > 0 || sendFault ==> s.state in {Established, CloseWait})
  }

  ghost predicate ScannedWakers(c: Control, v: Visit, recvFault: bool, sendFault: bool, n: nat, m: nat)
  {
    && (if n > 0 || recvFault || v.ctl.recvState != c.recvState
        then v.ctl.recvWaker == None && v.wokeRecv == Fired(c.recvWaker)
        else v.ctl.recvWaker == c.recvWaker && v.wokeRecv == {})
    && (if m > 0 || sendFault then v.ctl.sendWaker == None && v.wokeSend == Fired(c.sendWaker)
        else v.ctl.sendWaker == c.sendWaker && v.wokeSend == {})
  }

  ghost predicate Scanned(c: Control, s: Sock, v: Visit, recvFault: bool, sendFault: bool, n: nat, m: nat)
  {
    && ScannedBytes(c, s, v, n, m) && ScannedStates(c, s, v, recvFault, sendFault, m)
    && ScannedWakers(c, v, recvFault, sendFault, n, m)
  }

  lemma CanSendBeforeScan(c: Control, s: Sock, recvFault: Option<nat>)
    requires FaultFits(recvFault, Receivable(c, s))
    ensures var (c3, s3, _) := BeforeSend(c, s, recvFault);
      Sendable(c3, s3) > 0 ==> !ShouldClose(c) && recvFault == None && s.state in {Established, CloseWait}
  {
    ReceiveSide(c, s, recvFault);
  }

  // A visit in terms of its two halves.
  lemma ScanInHalves(c: Control, s: Sock, recvFault: Option<nat>, sendFault: Option<nat>)
    requires FaultsFit(c, s, recvFault, sendFault) && s.state != ClosedState
    ensures var (c3, s3, wokeRecv) := BeforeSend(c, s, recvFault);
      var (c4, s4, wokeSend) := AfterSend(c3, s3, sendFault);
      Scan(c, s, recvFault, sendFault) ==
        Visit(c4, s4, wokeRecv, wokeSend, false, ShouldClose(c),
              s.unread[..Moved(recvFault, Receivable(c, s))], c.sendBuffer[..Moved(sendFault, Sendable(c3, s3))])
  {
  }

  // The receiving half of a visit moved `n` bytes and left `c3` and `s3`.
  ghost predicate ReceivedHalf(c: Control, s: Sock, c3: Control, s3: Sock, woke: set<Task>, fault: bool, n: nat)
  {
    && n <= |s.unread| && (fault ==> n < |s.unread|)
    && c3.sendBuffer == c.sendBuffer && c3.sendWaker == c.sendWaker
    && c3.sendState == (if ShouldClose(c) then Closing else c.sendState)
    && c3.recvBuffer == c.recvBuffer + s.unread[..n] && s3.unread == s.unread[n..]
    && s3.state == (if fault then ClosedState else if ShouldClose(c) then s.Close().state else s.state)
    && (c3.recvState != c.recvState ==> c.recvState == Normal && c3.recvState == Closed)
    && (c3.recvState != c.recvState && !fault ==> !s3.MayRecv() && !Receptive(s3.state))
    && (fault && c.recvState == Normal ==> c3.recvState == Closed)
    && (c.recvState == Normal && !s3.MayRecv() && !Receptive(s3.state) ==> c3.recvState == Closed)
    && (if n > 0 || fault || c3.recvState != c.recvState
        then c3.recvWaker == None && woke == Fired(c.recvWaker)
        else c3.recvWaker == c.recvWaker && woke == {})
  }

  // The sending half moved `m` bytes of `c3` and left `c4` and `s4`.
  ghost predicate SentHalf(c3: Control, s3: Sock, c4: Control, s4: Sock, woke: set<Task>, fault: bool, m: nat)
  {
    && m <= |c3.sendBuffer|
    && c4.recvBuffer == c3.recvBuffer && c4.recvWaker == c3.recvWaker && c4.recvState == c3.recvState
    && c4.sendBuffer == c3.sendBuffer[m..] && s4.unread == s3.unread
    && s4.state == (if fault then ClosedState else s3.state)
    && c4.sendState == (if fault && c3.sendState == Normal then Closed else c3.sendState)
    && (if m > 0 || fault then c4.sendWaker == None && woke == Fired(c3.sendWaker)
        else c4.sendWaker == c3.sendWaker && woke == {})
  }

  lemma ReceivePart(c: Control, s: Sock, fault: Option<nat>)
    requires FaultFits(fault, Receivable(c, s))
    ensures var (c3, s3, woke) := BeforeSend(c, s, fault);
      ReceivedHalf(c, s, c3, s3, woke, fault.Some?, Moved(fault, Receivable(c, s)))
  {
    ReceiveSide(c, s, fault);
  }

  lemma SendPart(c: Control, s: Sock, fault: Option<nat>)
    requires FaultFits(fault, Sendable(c, s))
    ensures var (c4, s4, woke) := AfterSend(c, s, fault);
      SentHalf(c, s, c4, s4, woke, fault.Some?, Moved(fault, Sendable(c, s)))
  {
    SendSide(c, s, fault);
  }

  lemma HalvesMakeScanned(c: Control, s: Sock, c3: Control, s3: Sock, v: Visit,
                          recvFault: bool, sendFault: bool, n: nat, m: nat)
    requires ReceivedHalf(c, s, c3, s3, v.wokeRecv, recvFault, n)
    requires SentHalf(c3, s3, v.ctl, v.sock, v.wokeSend, sendFault, m)
    requires !v.reaped && v.finSent == ShouldClose(c)
    requires v.received == s.unread[..n] && v.handed == c.sendBuffer[..m]
    requires m > 0 || sendFault ==>
      !ShouldClose(c) && !recvFault && s.state in {Established, CloseWait} && c.sendBuffer != []
    ensures Scanned(c, s, v, recvFault, sendFault, n, m)
  {
  }

  lemma ScanFacts(c: Control, s: Sock, recvFault: Option<nat>, sendFault: Option<nat>) returns (n: nat, m: nat)
    requires FaultsFit(c, s, recvFault, sendFault) && s.state != ClosedState
    ensures n == Moved(recvFault, Receivable(c, s))
    ensures var (c3, s3, _) := BeforeSend(c, s, recvFault); m == Moved(sendFault, Sendable(c3, s3))
    ensures Scanned(c, s, Scan(c, s, recvFault, sendFault), recvFault.Some?, sendFault.Some?, n, m)
  {
    var (c3, s3, _) := BeforeSend(c, s, recvFault);
    ReceivePart(c, s, recvFault);
    SendPart(c3, s3, sendFault);
    CanSendBeforeScan(c, s, recvFault);
    ScanInHalves(c, s, recvFault, sendFault);
    n := Moved(recvFault, Receivable(c, s));
    m := Moved(sendFault, Sendable(c3, s3));
    HalvesMakeScanned(c, s, c3, s3, Scan(c, s, recvFault, sendFault), recvFault.Some?, sendFault.Some?, n, m);
  }

  lemma AllThatFits(c: Control, s: Sock)
    ensures Receivable(c, s) ==
      if |c.recvBuffer| >= 1_048_576 then 0 else Min(|s.unread|, 1_048_576 - |c.recvBuffer|)
    ensures var (c3, s3, _) := BeforeSend(c, s, None);
      Sendable(c3, s3) == if s.state in {Established, CloseWait} then Min(|c.sendBuffer|, s.txRoom) else 0
  {
    ReceiveSide(c, s, None);
    CanSendBeforeScan(c, s, None);
  }

  // A visit without faults, in the terms of the fields: the FIN goes out exactly for an asked-for close
  // with nothing left, each direction moves all that fits, and reading ends exactly when nothing is
  // unread and the peer can send no more.
  lemma FaultFreeVisit(c: Control, s: Sock)
    requires s.state != ClosedState
    ensures FaultsFit(c, s, None, None)
    ensures var v := Scan(c, s, None, None);
      && (v.finSent <==> c.sendState == Close && c.sendBuffer == [])
      && v.received <= s.unread && v.handed <= c.sendBuffer
      && |v.received| == (if |c.recvBuffer| >= 1_048_576 then 0 else Min(|s.unread|, 1_048_576 - |c.recvBuffer|))
      && |v.handed| == (if s.state in {Established, CloseWait} then Min(|c.sendBuffer|, s.txRoom) else 0)
      && v.ctl.sendState == (if v.finSent then Closing else c.sendState)
      && (v.ctl.recvState == Closed <==>
            || c.recvState == Closed
            || (c.recvState == Normal && v.sock.unread == []
                && v.sock.state in {ClosedState, SynSent, CloseWait, ClosingState, LastAck, TimeWait}))
      && (v.ctl.recvState != Closed ==> v.ctl.recvState == c.recvState)
  {
    AllThatFits(c, s);
    var n, m := ScanFacts(c, s, None, None);
    ScannedMeans(c, s, Scan(c, s, None, None), n, m);
  }

  lemma ScannedMeans(c: Control, s: Sock, v: Visit, n: nat, m: nat)
    requires Scanned(c, s, v, false, false, n, m)
    ensures (v.finSent <==> c.sendState == Close && c.sendBuffer == []) && |v.received| == n && |v.handed| == m
    ensures v.received <= s.unread && v.handed <= c.sendBuffer
    ensures v.ctl.sendState == if v.finSent then Closing else c.sendState
    ensures v.ctl.recvState == Closed <==>
      || c.recvState == Closed
      || (c.recvState == Normal && v.sock.unread == []
          && v.sock.state in {ClosedState, SynSent, CloseWait, ClosingState, LastAck, TimeWait})
    ensures v.ctl.recvState != Closed ==> v.ctl.recvState == c.recvState
  {
  }

  // The shared control block, mutated under its lock.
  class TcpSocketControl {
    var sendBuffer: seq<byte>
    var sendWaker: Option<Task>
    var recvBuffer: seq<byte>
    var recvWaker: Option<Task>
    var recvState: HalfState
    var sendState: HalfState

    constructor ()
      ensures View() == NEW_CONTROL
    {
      sendBuffer, recvBuffer := [], [];
      sendWaker, recvWaker := None, None;
      recvState, sendState := Normal, Normal;
    }

    function View(): Control
      reads this
    {
      Control(sendBuffer, sendWaker, recvBuffer, recvWaker, recvState, sendState)
    }

    method Read(task: Task, room: nat) returns (reply: Reply, ghost woke: set<Task>, notified: bool)
      modifies this
      ensures Effect(View(), reply, woke, {}, notified) == PollRead(old(View()), task, room)
    {
      woke, notified := {}, false;
      if recvBuffer == [] {
        if recvState == Closed {
          return Bytes([]), {}, false;
        }
        woke := Displaced(recvWaker, task);
        recvWaker := Some(task);
        return Pending, woke, false;
      }
      var n := Min(room, |recvBuffer|);
      reply := Bytes(recvBuffer[..n]);
      recvBuffer := recvBuffer[n..];
      notified := n > 0;
    }

    method Write(task: Task, data: seq<byte>) returns (reply: Reply, ghost woke: set<Task>, notified: bool)
      modifies this
      ensures Effect(View(), reply, {}, woke, notified) == PollWrite(old(View()), task, data)
    {
      if sendState != Normal {
        return BrokenPipe, {}, false;
      }
      if |sendBuffer| >= CAPACITY {
        woke := Displaced(sendWaker, task);
        sendWaker := Some(task);
        return Pending, woke, false;
      }
      var n := Min(|data|, CAPACITY - |sendBuffer|);
      sendBuffer := sendBuffer + data[..n];
      return Wrote(n), {}, n > 0;
    }

    method Shutdown(task: Task) returns (reply: Reply, ghost woke: set<Task>, notified: bool)
      modifies this
      ensures Effect(View(), reply, {}, woke, notified) == PollShutdown(old(View()), task)
    {
      if sendState == Closed {
        return Done, {}, false;
      }
      if sendState == Normal {
        sendState := Close;
      }
      woke := Displaced(sendWaker, task);
      sendWaker := Some(task);
      return Pending, woke, true;
    }

    method Drop() returns (notified: bool)
      modifies this
      ensures Effect(View(), Done, {}, {}, notified) == DropStream(old(View()))
    {
      if recvState == Normal {
        recvState := Close;
      }
      if sendState == Normal {
        sendState := Close;
      }
      notified := true;
    }

    // The receive loop of the scan: socket ring buffer into `recvBuffer` until one side gives out.
    method DrainSocket(socket: TcpSocket) returns (wake: bool, ghost fault: Option<nat>)
      requires |recvBuffer| <= CAPACITY
      modifies this, socket
      ensures FaultFits(fault, Receivable(old(View()), old(socket.View())))
      ensures (View(), socket.View()) == AfterRecv(old(View()), old(socket.View()), fault)
      ensures wake <==> fault.Some? || Receivable(old(View()), old(socket.View())) > 0
    {
      wake, fault := false, None;
      ghost var c0, s0 := View(), socket.View();
      ghost var moved := 0;
      while socket.View().CanRecv() && |recvBuffer| < CAPACITY
        invariant 0 <= moved <= Receivable(c0, s0)
        invariant View() == c0.(recvBuffer := c0.recvBuffer + s0.unread[..moved])
        invariant socket.View() == s0.(unread := s0.unread[moved..])
        invariant wake <==> moved > 0
        decreases |socket.unread|
      {
        var ok, buffer := socket.BeginRecv();
        if !ok {
          socket.Abort();
          if recvState == Normal {
            recvState := Closed;
          }
          return true, Some(moved);
        }
        var n := Min(|buffer|, CAPACITY - |recvBuffer|);
        recvBuffer := recvBuffer + buffer[..n];
        assert s0.unread[..moved] + buffer[..n] == s0.unread[..moved + n];
        socket.EndRecv(n);
        moved := moved + n;
        wake := true;
      }
    }

    // The send loop of the scan: `sendBuffer` into the socket until one side gives out.
    method DrainSendBuffer(socket: TcpSocket) returns (wake: bool, ghost fault: Option<nat>)
      modifies this, socket
      ensures FaultFits(fault, Sendable(old(View()), old(socket.View())))
      ensures wake <==> fault.Some? || Sendable(old(View()), old(socket.View())) > 0
      ensures var (c, s, woke) := AfterSend(old(View()), old(socket.View()), fault);
        socket.View() == s && c == if wake then View().(sendWaker := None) else View()
      ensures sendWaker == old(sendWaker)
    {
      wake, fault := false, None;
      ghost var c0, s0 := View(), socket.View();
      ghost var moved := 0;
      while socket.View().CanSend() && sendBuffer != []
        invariant 0 <= moved <= Sendable(c0, s0)
        invariant View() == c0.(sendBuffer := c0.sendBuffer[moved..])
        invariant socket.View() == s0.(txRoom := s0.txRoom - moved)
        invariant wake <==> moved > 0
        decreases |sendBuffer|
      {
        var ok, room := socket.BeginSend();
        if !ok {
          socket.Abort();
          if sendState == Normal {
            sendState := Closed;
          }
          return true, Some(moved);
        }
        var n := Min(|sendBuffer|, room);
        sendBuffer := sendBuffer[n..];
        socket.EndSend(n);
        moved := moved + n;
        wake := true;
      }
    }

    // The visit up to the receiver's wake-up: SHUT_WR, receive loop, half-close.
    method VisitReceiver(socket: TcpSocket) returns (ghost woke: set<Task>, ghost fault: Option<nat>)
      requires |recvBuffer| <= CAPACITY
      modifies this, socket
      ensures FaultFits(fault, Receivable(old(View()), old(socket.View())))
      ensures (View(), socket.View(), woke) == BeforeSend(old(View()), old(socket.View()), fault)
    {
      if sendState == Close && sendBuffer == [] {
        socket.Close();
        sendState := Closing;
      }
      assert (View(), socket.View()) == AfterClose(old(View()), old(socket.View()));
      var wakeReceiver;
      wakeReceiver, fault := DrainSocket(socket);
      if recvState == Normal && !socket.View().MayRecv() && !Receptive(socket.state) {
        recvState := Closed;
        wakeReceiver := true;
      }
      woke := {};
      if wakeReceiver {
        woke := Fired(recvWaker);
        recvWaker := None;
      }
    }

    // The rest of the visit: send loop and the sender's wake-up.
    method VisitSender(socket: TcpSocket) returns (ghost woke: set<Task>, ghost fault: Option<nat>)
      modifies this, socket
      ensures FaultFits(fault, Sendable(old(View()), old(socket.View())))
      ensures (View(), socket.View(), woke) == AfterSend(old(View()), old(socket.View()), fault)
    {
      var wakeSender;
      wakeSender, fault := DrainSendBuffer(socket);
      woke := {};
      if wakeSender {
        woke := Fired(sendWaker);
        sendWaker := None;
      }
    }

    // One visit of the worker's scan; `remove` tells it to forget the connection.
    method Visit(socket: TcpSocket)
      returns (remove: bool, ghost wokeRecv: set<Task>, ghost wokeSend: set<Task>,
               ghost recvFault: Option<nat>, ghost sendFault: Option<nat>)
      requires |recvBuffer| <= CAPACITY
      modifies this, socket
      ensures FaultsFit(old(View()), old(socket.View()), recvFault, sendFault)
      ensures var v := Scan(old(View()), old(socket.View()), recvFault, sendFault);
        View() == v.ctl && socket.View() == v.sock && remove == v.reaped &&
        wokeRecv == v.wokeRecv && wokeSend == v.wokeSend
    {
      if socket.state == ClosedState {
        wokeRecv, wokeSend := Fired(recvWaker), Fired(sendWaker);
        sendState, recvState := Closed, Closed;
        sendWaker, recvWaker := None, None;
        return true, wokeRecv, wokeSend, None, None;
      }
      wokeRecv, recvFault := VisitReceiver(socket);
      wokeSend, sendFault := VisitSender(socket);
      remove := false;
    }
  }
}
