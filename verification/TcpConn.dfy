// One bridged connection with its history: what was accepted, handed over, taken and returned.
module TcpConn {
  import opened Bytes
  import opened SmolSocket
  import opened TcpControl

  // Why reads end: still open, the half-close check after everything was taken, a socket fault, or
  // the worker found the socket Closed, with so many bytes unread in it, and reaped it.
  datatype Ending = Open | HalfClosed | Faulted | Reaped(left: nat)

  datatype Conn = Conn(
    ctl: Control, sock: Sock,
    accepted: seq<byte>,   // bytes `poll_write` took
    handed: seq<byte>,     // bytes the worker passed to the socket
    arrived: seq<byte>,    // bytes the peer delivered to the socket
    taken: seq<byte>,      // bytes the worker took from the socket
    returned: seq<byte>,   // bytes `poll_read` returned
    finSent: bool,         // `socket.close()` was called
    ending: Ending,
    waitingRead: set<Task>, waitingWrite: set<Task>, // told Pending and not woken since
    dirty: bool,           // changed by a stream call since the last visit
    dropped: bool,
    asked: bool,           // the stream was shut down or dropped
    dest: nat,             // where the socket listens
    took: set<nat>,        // the opening SYNs the socket took, by the connection made for each
    reaped: bool)          // the worker has found the socket Closed

  function NewConn(dest: nat, room: nat): Conn
  {
    Conn(NEW_CONTROL, Sock(Listen, [], room), [], [], [], [], [], false, Open, {}, {}, false, false, false,
         dest, {}, false)
  }

  datatype Call = Read(task: Task, room: nat) | Write(task: Task, data: seq<byte>) | Shutdown(task: Task) | Drop

  function Perform(c: Control, call: Call): Effect
  {
    match call
    case Read(t, room) => PollRead(c, t, room)
    case Write(t, data) => PollWrite(c, t, data)
    case Shutdown(t) => PollShutdown(c, t)
    case Drop => DropStream(c)
  }

  function Waiting(call: Call, reply: Reply): (set<Task>, set<Task>)
  {
    match call
    case Read(t, _) => (if reply == Pending then {t} else {}, {})
    case Write(t, _) => ({}, if reply == Pending then {t} else {})
    case Shutdown(t) => ({}, if reply == Pending then {t} else {})
    case Drop => ({}, {})
  }

  // A stream call; `dirty` records that it changed more than a waker.
  function AfterCall(c: Conn, call: Call): Conn
  {
    var e := Perform(c.ctl, call);
    var (r, w) := Waiting(call, e.reply);
    c.(ctl := e.ctl,
       accepted := if call.Write? && e.reply.Wrote? then c.accepted + call.data[..Min(e.reply.n, |call.data|)]
                   else c.accepted,
       returned := if e.reply.Bytes? then c.returned + e.reply.data else c.returned,
       waitingRead := c.waitingRead - e.wokeRecv + r,
       waitingWrite := c.waitingWrite - e.wokeSend + w,
       dirty := c.dirty || Changed(c.ctl, e.ctl),
       dropped := c.dropped || call.Drop?, asked := c.asked || call.Shutdown? || call.Drop?)
  }

  predicate Changed(before: Control, after: Control)
  {
    before.(sendWaker := None, recvWaker := None) != after.(sendWaker := None, recvWaker := None)
  }

  function AfterVisit(c: Conn, recvFault: Option<nat>, sendFault: Option<nat>): Conn
    requires FaultsFit(c.ctl, c.sock, recvFault, sendFault)
  {
    var v := Scan(c.ctl, c.sock, recvFault, sendFault);
    c.(ctl := v.ctl, sock := v.sock,
       handed := c.handed + v.handed, taken := c.taken + v.received,
       finSent := c.finSent || v.finSent,
       ending := if c.ctl.recvState == Closed || v.ctl.recvState != Closed then c.ending
                 else if v.reaped then Reaped(|c.sock.unread|) else if recvFault.Some? then Faulted else HalfClosed,
       waitingRead := c.waitingRead - v.wokeRecv, waitingWrite := c.waitingWrite - v.wokeSend,
       dirty := false, reaped := c.reaped || v.reaped)
  }

  function AfterPoll(c: Conn, sock: Sock, delivered: seq<byte>): Conn
  {
    c.(sock := sock, arrived := c.arrived + delivered)
  }

  function AfterSyn(c: Conn, sock: Sock, syn: nat): Conn
  {
    c.(sock := sock, took := c.took + {syn})
  }

  // ---- What every step keeps ----

  ghost predicate Conserved(c: Conn)
  {
    && c.accepted == c.handed + c.ctl.sendBuffer
    && c.taken == c.returned + c.ctl.recvBuffer
    && c.arrived == c.taken + c.sock.unread
    && |c.ctl.sendBuffer| <= CAPACITY && |c.ctl.recvBuffer| <= CAPACITY
  }

  ghost predicate ClosedInOrder(c: Conn)
  {
    && c.ctl.recvState != Closing
    && (c.ctl.recvState == Close ==> c.dropped)
    && (c.ctl.sendState in {Close, Closing} || c.finSent ==> c.asked)
    && (c.ctl.sendState == Closing ==> c.finSent)
    && (c.finSent ==> c.ctl.sendState in {Closing, Closed} && c.ctl.sendBuffer == [])
    && (c.ending == Open <==> c.ctl.recvState != Closed)
    && (c.ending == HalfClosed ==> c.sock.unread == [] && !Receptive(c.sock.state))
    && (c.ending == Faulted ==> c.sock.unread != [] && c.sock.state == ClosedState)
    && (c.ending.Reaped? ==> c.reaped && c.ending.left == |c.sock.unread|)
    && (c.reaped ==> c.sock.state == ClosedState && c.ctl.sendState == c.ctl.recvState == Closed)
  }

  // Before its first SYN a socket listens, unless the worker closed it on an idle stream's request.
  ghost predicate Unopened(c: Conn)
  {
    c.took == {} ==>
      && c.arrived == [] && c.handed == []
      && c.sock.state == (if c.finSent then ClosedState else Listen)
  }

  // A registered waker is still needed, and nobody who was told to wait has been forgotten.
  ghost predicate WakersSound(c: Conn)
  {
    && (c.ctl.recvWaker.Some? ==> c.ctl.recvBuffer == [] && c.ctl.recvState != Closed)
    && (c.ctl.sendWaker.Some? ==> c.ctl.sendState != Closed)
    && (c.ctl.sendWaker.Some? && c.ctl.sendState == Normal ==> |c.ctl.sendBuffer| == CAPACITY)
    && c.waitingRead <= Fired(c.ctl.recvWaker)
    && c.waitingWrite <= Fired(c.ctl.sendWaker)
  }

  ghost predicate ConnInv(c: Conn)
  {
    Conserved(c) && ClosedInOrder(c) && WakersSound(c) && Unopened(c)
  }

  lemma NewConnInv(dest: nat, room: nat)
    ensures ConnInv(NewConn(dest, room))
  {
  }

  lemma MovesFront(whole: seq<byte>, done: seq<byte>, left: seq<byte>, n: nat)
    requires whole == done + left && n <= |left|
    ensures whole == (done + left[..n]) + left[n..]
  {
    assert left == left[..n] + left[n..];
  }

  lemma MovesAcross(taken: seq<byte>, returned: seq<byte>, buffer: seq<byte>, more: seq<byte>)
    requires taken == returned + buffer
    ensures taken + more == returned + (buffer + more)
  {
  }

  lemma ReadKeeps(c: Conn, task: Task, room: nat)
    requires ConnInv(c)
    ensures ConnInv(AfterCall(c, Read(task, room)))
  {
    if c.ctl.recvBuffer != [] {
      MovesFront(c.taken, c.returned, c.ctl.recvBuffer, Min(room, |c.ctl.recvBuffer|));
    } else if c.ctl.recvState == Closed {
      assert c.returned + [] == c.returned;
    }
  }

  lemma WriteKeeps(c: Conn, task: Task, data: seq<byte>)
    requires ConnInv(c)
    ensures ConnInv(AfterCall(c, Write(task, data)))
  {
    if c.ctl.sendState == Normal && |c.ctl.sendBuffer| < CAPACITY {
      var n := Min(|data|, CAPACITY - |c.ctl.sendBuffer|);
      assert c.accepted + data[..n] == c.handed + (c.ctl.sendBuffer + data[..n]);
    }
  }

  lemma CallKeeps(c: Conn, call: Call)
    requires ConnInv(c)
    ensures ConnInv(AfterCall(c, call))
  {
    match call
    case Read(t, room) => ReadKeeps(c, t, room);
    case Write(t, data) => WriteKeeps(c, t, data);
    case Shutdown(t) =>
    case Drop =>
  }

  // A call that changes more than a waker leaves a permit for the worker.
  lemma ChangeNotifies(c: Control, call: Call)
    requires Changed(c, Perform(c, call).ctl)
    ensures Perform(c, call).notified
  {
    match call
    case Write(_, data) => assert c.sendBuffer + data[..0] == c.sendBuffer;
    case _ =>
  }

  // A segment or a timer.
  lemma PollKeeps(c: Conn, sock: Sock, delivered: seq<byte>)
    requires ConnInv(c) && PollStep(c.sock, sock, delivered)
    requires c.sock.state in {Listen, ClosedState} ==> sock == c.sock && delivered == []
    ensures ConnInv(AfterPoll(c, sock, delivered))
  {
    assert c.arrived + delivered == c.taken + (c.sock.unread + delivered);
  }

  lemma SynKeeps(c: Conn, sock: Sock, syn: nat)
    requires ConnInv(c) && SynStep(c.sock, sock)
    ensures ConnInv(AfterSyn(c, sock, syn))
  {
  }

  // The connection `d` is `c` after the visit `v`.
  ghost predicate Recorded(c: Conn, v: Visit, d: Conn, recvFault: bool)
  {
    && d.ctl == v.ctl && d.sock == v.sock
    && d.accepted == c.accepted && d.arrived == c.arrived && d.returned == c.returned
    && d.handed == c.handed + v.handed && d.taken == c.taken + v.received
    && d.finSent == (c.finSent || v.finSent)
    && d.ending == (if v.ctl.recvState == c.ctl.recvState then c.ending else if recvFault then Faulted else HalfClosed)
    && d.waitingRead == c.waitingRead - v.wokeRecv && d.waitingWrite == c.waitingWrite - v.wokeSend
    && d.asked == c.asked && d.dropped == c.dropped && d.dest == c.dest && d.took == c.took && d.reaped == c.reaped
  }

  lemma VisitConserves(c: Conn, v: Visit, d: Conn, recvFault: bool, sendFault: bool, n: nat, m: nat)
    requires Conserved(c) && |v.ctl.recvBuffer| <= CAPACITY
    requires Scanned(c.ctl, c.sock, v, recvFault, sendFault, n, m) && Recorded(c, v, d, recvFault)
    ensures Conserved(d)
  {
    MovesFront(c.arrived, c.taken, c.sock.unread, n);
    MovesAcross(c.taken, c.returned, c.ctl.recvBuffer, c.sock.unread[..n]);
    MovesFront(c.accepted, c.handed, c.ctl.sendBuffer, m);
  }

  lemma VisitClosesInOrder(c: Conn, v: Visit, d: Conn, recvFault: bool, sendFault: bool, n: nat, m: nat)
    requires ClosedInOrder(c) && c.sock.state != ClosedState
    requires Scanned(c.ctl, c.sock, v, recvFault, sendFault, n, m) && Recorded(c, v, d, recvFault)
    ensures ClosedInOrder(d)
  {
  }

  lemma VisitKeepsWakers(c: Conn, v: Visit, d: Conn, recvFault: bool, sendFault: bool, n: nat, m: nat)
    requires WakersSound(c)
    requires Scanned(c.ctl, c.sock, v, recvFault, sendFault, n, m) && Recorded(c, v, d, recvFault)
    ensures WakersSound(d)
  {
  }

  lemma VisitKeepsUnopened(c: Conn, v: Visit, d: Conn, recvFault: bool, sendFault: bool, n: nat, m: nat)
    requires Conserved(c) && Unopened(c) && c.sock.state != ClosedState
    requires Scanned(c.ctl, c.sock, v, recvFault, sendFault, n, m) && Recorded(c, v, d, recvFault)
    ensures Unopened(d)
  {
  }

  lemma VisitIsRecorded(c: Conn, recvFault: Option<nat>, sendFault: Option<nat>) returns (n: nat, m: nat)
    requires ConnInv(c) && FaultsFit(c.ctl, c.sock, recvFault, sendFault) && c.sock.state != ClosedState
    ensures var v := Scan(c.ctl, c.sock, recvFault, sendFault);
      && |v.ctl.recvBuffer| <= CAPACITY
      && Scanned(c.ctl, c.sock, v, recvFault.Some?, sendFault.Some?, n, m)
      && Recorded(c, v, AfterVisit(c, recvFault, sendFault), recvFault.Some?)
  {
    n, m := ScanFacts(c.ctl, c.sock, recvFault, sendFault);
  }

  lemma ReapKeeps(c: Conn)
    requires ConnInv(c) && c.sock.state == ClosedState
    ensures ConnInv(AfterVisit(c, None, None))
  {
    assert c.handed + [] == c.handed && c.taken + [] == c.taken;
  }

  lemma VisitKeeps(c: Conn, recvFault: Option<nat>, sendFault: Option<nat>)
    requires ConnInv(c) && FaultsFit(c.ctl, c.sock, recvFault, sendFault)
    ensures ConnInv(AfterVisit(c, recvFault, sendFault))
  {
    var d := AfterVisit(c, recvFault, sendFault);
    if c.sock.state == ClosedState {
      ReapKeeps(c);
    } else {
      var n, m := VisitIsRecorded(c, recvFault, sendFault);
      var v := Scan(c.ctl, c.sock, recvFault, sendFault);
      VisitConserves(c, v, d, recvFault.Some?, sendFault.Some?, n, m);
      VisitClosesInOrder(c, v, d, recvFault.Some?, sendFault.Some?, n, m);
      VisitKeepsWakers(c, v, d, recvFault.Some?, sendFault.Some?, n, m);
      VisitKeepsUnopened(c, v, d, recvFault.Some?, sendFault.Some?, n, m);
    }
  }

  // ---- States move forward only ----

  function Rank(h: HalfState): nat
  {
    match h case Normal => 0 case Close => 1 case Closing => 2 case Closed => 3
  }

  predicate Forward(before: Control, after: Control)
  {
    Rank(before.sendState) <= Rank(after.sendState) && Rank(before.recvState) <= Rank(after.recvState)
  }

  lemma CallMovesForward(c: Conn, call: Call)
    ensures Forward(c.ctl, AfterCall(c, call).ctl)
  {
    match call
    case Read(t, room) =>
    case Write(t, data) =>
    case Shutdown(t) =>
    case Drop =>
  }

  lemma VisitMovesForward(c: Conn, recvFault: Option<nat>, sendFault: Option<nat>)
    requires ConnInv(c) && FaultsFit(c.ctl, c.sock, recvFault, sendFault)
    ensures Forward(c.ctl, AfterVisit(c, recvFault, sendFault).ctl)
  {
    if c.sock.state != ClosedState {
      var n, m := VisitIsRecorded(c, recvFault, sendFault);
    }
  }

  // ---- A visited connection is settled ----

  // The worker could do nothing for this connection now.
  predicate Settled(c: Control, s: Sock)
  {
    s.state != ClosedState && Receivable(c, s) == 0 && Sendable(c, s) == 0 && !PeerFinished(c, s) && !ShouldClose(c)
  }

  // The FIN that a visit leaves behind when its send loop was the one that emptied the buffer.
  predicate FinPending(c: Control, s: Sock)
  {
    s.state != ClosedState && ShouldClose(c) && Receivable(c, s) == 0 && !PeerFinished(c, s)
  }

  predicate Quiet(c: Conn)
  {
    Settled(c.ctl, c.sock) || FinPending(c.ctl, c.sock) || c.sock.state == ClosedState
  }

  lemma SettledMeansIdle(c: Control, s: Sock)
    requires Settled(c, s)
    ensures FaultsFit(c, s, None, None)
    ensures Scan(c, s, None, None) == TcpControl.Visit(c, s, {}, {}, false, false, [], [])
  {
    assert s.unread[..0] == [] && s.unread[0..] == s.unread && c.recvBuffer + [] == c.recvBuffer;
    assert c.sendBuffer[..0] == [] && c.sendBuffer[0..] == c.sendBuffer;
  }

  // The receiving half leaves nothing to receive, no half-close to notice and no close to make.
  lemma NothingLeftToReceive(c: Control, s: Sock, fault: Option<nat>)
    requires |c.recvBuffer| <= CAPACITY && FaultFits(fault, Receivable(c, s)) && s.state != ClosedState
    ensures var (c3, s3, _) := BeforeSend(c, s, fault);
      s3.state == ClosedState || (Receivable(c3, s3) == 0 && !PeerFinished(c3, s3) && !ShouldClose(c3))
  {
    ReceivePart(c, s, fault);
  }

  // The sending half leaves nothing to send, and at most the close it made possible.
  lemma NothingLeftToSend(c3: Control, s3: Sock, fault: Option<nat>)
    requires FaultFits(fault, Sendable(c3, s3))
    requires s3.state == ClosedState || (Receivable(c3, s3) == 0 && !PeerFinished(c3, s3) && !ShouldClose(c3))
    ensures var (c4, s4, _) := AfterSend(c3, s3, fault);
      Settled(c4, s4) || FinPending(c4, s4) || s4.state == ClosedState
  {
    SendPart(c3, s3, fault);
  }

  // After any visit the connection is settled, closed, or owes a FIN.
  lemma VisitQuiets(c: Conn, recvFault: Option<nat>, sendFault: Option<nat>)
    requires ConnInv(c) && FaultsFit(c.ctl, c.sock, recvFault, sendFault)
    ensures Quiet(AfterVisit(c, recvFault, sendFault))
  {
    if c.sock.state != ClosedState {
      NothingLeftToReceive(c.ctl, c.sock, recvFault);
      var (c3, s3, _) := BeforeSend(c.ctl, c.sock, recvFault);
      NothingLeftToSend(c3, s3, sendFault);
      ScanInHalves(c.ctl, c.sock, recvFault, sendFault);
    }
  }

  // Exactly which fault-free visits leave a FIN behind: the stream had shut down with data still
  // buffered, and the socket had room for all of it.
  lemma FinPendingExactly(c: Conn)
    requires ConnInv(c) && FaultsFit(c.ctl, c.sock, None, None) && c.sock.state != ClosedState
    ensures FinPending(AfterVisit(c, None, None).ctl, AfterVisit(c, None, None).sock) <==>
      c.ctl.sendState == Close && c.ctl.sendBuffer != [] && c.sock.CanSend() && |c.ctl.sendBuffer| <= c.sock.txRoom
  {
    var n, m := ScanFacts(c.ctl, c.sock, None, None);
    ReceiveSide(c.ctl, c.sock, None);
    var (c3, s3, _) := BeforeSend(c.ctl, c.sock, None);
    SendSide(c3, s3, None);
  }

  lemma ScannedClosed(c: Conn, v: Visit, d: Conn, recvFault: bool, sendFault: bool, n: nat, m: nat)
    requires c.sock.state != ClosedState
    requires ScannedStates(c.ctl, c.sock, v, recvFault, sendFault, m) && d.sock == v.sock
    ensures d.sock.state == ClosedState <==>
      recvFault || sendFault || (ShouldClose(c.ctl) && c.sock.state in {Listen, SynSent})
  {
  }

  // Exactly which visits leave a Closed socket for the next one to reap: those that failed, and those
  // that closed a connection nobody had opened yet.
  lemma ReapOwedExactly(c: Conn, recvFault: Option<nat>, sendFault: Option<nat>)
    requires ConnInv(c) && FaultsFit(c.ctl, c.sock, recvFault, sendFault) && c.sock.state != ClosedState
    ensures AfterVisit(c, recvFault, sendFault).sock.state == ClosedState <==>
      recvFault.Some? || sendFault.Some? || (ShouldClose(c.ctl) && c.sock.state in {Listen, SynSent})
  {
    var n, m := VisitIsRecorded(c, recvFault, sendFault);
    ScannedClosed(c, Scan(c.ctl, c.sock, recvFault, sendFault), AfterVisit(c, recvFault, sendFault),
                  recvFault.Some?, sendFault.Some?, n, m);
  }

  // The visit that ends reading: some bytes of the peer never reach the reader exactly when the
  // socket was found Closed with bytes unread, or its `recv` failed.
  lemma EndHidesExactly(c: Conn, recvFault: Option<nat>, sendFault: Option<nat>)
    requires ConnInv(c) && FaultsFit(c.ctl, c.sock, recvFault, sendFault)
    requires c.ctl.recvState != Closed && AfterVisit(c, recvFault, sendFault).ctl.recvState == Closed
    ensures var d := AfterVisit(c, recvFault, sendFault);
      d.returned + d.ctl.recvBuffer != d.arrived <==>
        if c.sock.state == ClosedState then c.sock.unread != [] else recvFault.Some?
  {
    var d := AfterVisit(c, recvFault, sendFault);
    VisitKeeps(c, recvFault, sendFault);
    assert |d.arrived| == |d.returned + d.ctl.recvBuffer| + |d.sock.unread|;
    if c.sock.state != ClosedState {
      var n, m := VisitIsRecorded(c, recvFault, sendFault);
    }
  }

  // Once reading has ended nothing further arrives or is taken, and the reason stands.
  ghost predicate EndStands(c: Conn, d: Conn)
  {
    c.ctl.recvState == Closed ==> d.arrived == c.arrived && d.taken == c.taken && d.ending == c.ending
  }

  lemma VisitLetsEndStand(c: Conn, recvFault: Option<nat>, sendFault: Option<nat>)
    requires ConnInv(c) && FaultsFit(c.ctl, c.sock, recvFault, sendFault)
    ensures EndStands(c, AfterVisit(c, recvFault, sendFault))
  {
    if c.sock.state != ClosedState && c.ctl.recvState == Closed {
      var n, m := VisitIsRecorded(c, recvFault, sendFault);
    }
  }

  lemma PollLetsEndStand(c: Conn, sock: Sock, delivered: seq<byte>)
    requires ConnInv(c) && PollStep(c.sock, sock, delivered)
    ensures EndStands(c, AfterPoll(c, sock, delivered))
  {
    assert !Receptive(c.sock.state) ==> delivered == [];
  }
}
