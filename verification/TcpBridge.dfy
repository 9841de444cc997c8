// The bridge as a step system: stream calls on any task, the packet handler, the worker's scan and
// the notify permit between them. One step is one lock-held section, one channel operation, or one
// frame of an interface poll.
module TcpBridge {
  import opened Bytes
  import opened SmolSocket
  import opened TcpControl
  import opened TcpConn

  type Handle = nat

  // A queued frame; an opening SYN names the connection that was created for it.
  datatype Frame = Segment | OpeningSyn(handle: Handle)

  // Where the worker is. The packet handler runs only while it is parked: both are branches of one
  // `select!`, so they interleave at awaits alone.
  datatype Phase =
    Draining | Polling | Scanning(todo: set<Handle>, dead: set<Handle>) | Reaping(gone: set<Handle>) | Deciding | Parked

  // Where the packet handler is inside the processing of one frame.
  datatype Handler = Waiting | StreamSent(h: Handle) | Forwarding(frame: Frame) | Queued | AvailSet

  // What the device answered last: a frame, that it has none, or none because egress was full, in
  // which case the frame it had popped is gone and `behind` more stay queued.
  datatype Device = Gave | Empty | Full(behind: nat)

  datatype System = System(
    conns: map<Handle, Conn>,
    queued: seq<Handle>,      // created sockets the worker has not added yet
    tracked: set<Handle>,     // the socket set, and the worker's `sockets` map
    added: set<Handle>,       // every handle ever put into the socket set
    ingress: seq<Frame>, avail: bool, device: Device,
    consumed: set<Handle>,    // connections whose opening SYN has left the ingress queue
    permit: bool,             // the stored notification
    phase: Phase, handler: Handler)

  const INITIAL := System(map[], [], {}, {}, [], false, Empty, {}, false, Draining, Waiting)

  datatype Event =
    | StreamCall(h: Handle, call: Call)
    | OpenStream(h: Handle, dest: nat, room: nat) | QueueSocket | TakeSegment | DiscardFrame
    | QueueFrame | SetAvail | NotifyWorker
    | AddSocket | BeginPoll
    | GiveSyn(h: Handle, sock: Sock) | GiveSegment(h: Handle, sock: Sock, delivered: seq<byte>) | IgnoreFrame
    | LoseFrame | FindNoFrame | TimerFires(h: Handle, sock: Sock) | EndPoll
    | VisitOne(h: Handle, recvFault: Option<nat>, sendFault: Option<nat>)
    | FinishScan | Reap | Decide(delay: nat) | WakeByPermit | WakeByTimer

  predicate Enabled(s: System, e: Event)
  {
    match e
    case StreamCall(h, call) => h in s.conns && !s.conns[h].dropped
    // handle_packet
    case OpenStream(h, _, _) => s.phase == Parked && s.handler == Waiting && h !in s.conns
    case QueueSocket => s.phase == Parked && s.handler.StreamSent?
    case TakeSegment => s.phase == Parked && s.handler == Waiting
    case DiscardFrame => s.phase == Parked && s.handler == Waiting
    case QueueFrame => s.phase == Parked && s.handler.Forwarding?
    case SetAvail => s.phase == Parked && s.handler == Queued
    case NotifyWorker => s.phase == Parked && s.handler == AvailSet
    // handle_socket
    case AddSocket => s.phase == Draining && s.queued != []
    case BeginPoll => s.phase == Draining && s.queued == []
    // Inside `iface.poll`, which asks the device for frames until it has none.
    case GiveSyn(h, sock) =>
      && s.phase == Polling && s.ingress != [] && s.ingress[0].OpeningSyn? && s.ingress[0].handle in s.conns
      && h in s.tracked && h in s.conns
      && SynStep(s.conns[h].sock, sock) && s.conns[h].dest == s.conns[s.ingress[0].handle].dest
    case GiveSegment(h, sock, delivered) =>
      && s.phase == Polling && s.ingress != [] && s.ingress[0].Segment?
      && h in s.tracked && h in s.conns && SegmentStep(s.conns[h].sock, sock, delivered)
    case IgnoreFrame => s.phase == Polling && s.ingress != []
    case LoseFrame => s.phase == Polling && s.ingress != []
    case FindNoFrame => s.phase == Polling && s.ingress == []
    case TimerFires(h, sock) =>
      s.phase == Polling && h in s.tracked && h in s.conns && TimerStep(s.conns[h].sock, sock)
    case EndPoll => s.phase == Polling && s.device != Gave
    case VisitOne(h, rf, sf) =>
      s.phase.Scanning? && h in s.phase.todo && h in s.conns && FaultsFit(s.conns[h].ctl, s.conns[h].sock, rf, sf)
    case FinishScan => s.phase.Scanning? && s.phase.todo == {}
    case Reap => s.phase.Reaping?
    case Decide(_) => s.phase == Deciding
    case WakeByPermit => s.phase == Parked && s.handler == Waiting && s.permit
    case WakeByTimer => s.phase == Parked && s.handler == Waiting
  }

  // The frame at the head of the queue has been taken off it.
  function Popped(s: System): System
    requires s.ingress != []
  {
    s.(ingress := s.ingress[1..], device := Gave,
       consumed := if s.ingress[0].OpeningSyn? then s.consumed + {s.ingress[0].handle} else s.consumed)
  }

  function Next(s: System, e: Event): System
    requires Enabled(s, e)
  {
    match e
    case StreamCall(h, call) =>
      s.(conns := s.conns[h := AfterCall(s.conns[h], call)],
         permit := s.permit || Perform(s.conns[h].ctl, call).notified)
    case OpenStream(h, dest, room) => s.(conns := s.conns[h := NewConn(dest, room)], handler := StreamSent(h))
    case QueueSocket => s.(queued := s.queued + [s.handler.h], handler := Forwarding(OpeningSyn(s.handler.h)))
    case TakeSegment => s.(handler := Forwarding(Segment))
    case DiscardFrame => s
    case QueueFrame => s.(ingress := s.ingress + [s.handler.frame], handler := Queued)
    case SetAvail => s.(avail := true, handler := AvailSet)
    case NotifyWorker => s.(permit := true, handler := Waiting)
    case AddSocket =>
      s.(queued := s.queued[1..], tracked := s.tracked + {s.queued[0]}, added := s.added + {s.queued[0]})
    case BeginPoll => s.(phase := Polling, device := Gave)
    case GiveSyn(h, sock) => Popped(s).(conns := s.conns[h := AfterSyn(s.conns[h], sock, s.ingress[0].handle)])
    case GiveSegment(h, sock, delivered) => Popped(s).(conns := s.conns[h := AfterPoll(s.conns[h], sock, delivered)])
    case IgnoreFrame => Popped(s)
    case LoseFrame => Popped(s).(avail := false, device := Full(|s.ingress| - 1))
    case FindNoFrame => s.(avail := false, device := Empty)
    case TimerFires(h, sock) => s.(conns := s.conns[h := AfterPoll(s.conns[h], sock, [])])
    case EndPoll => s.(phase := Scanning(s.tracked, {}))
    case VisitOne(h, rf, sf) =>
      var v := Scan(s.conns[h].ctl, s.conns[h].sock, rf, sf);
      s.(conns := s.conns[h := AfterVisit(s.conns[h], rf, sf)],
         phase := Scanning(s.phase.todo - {h}, if v.reaped then s.phase.dead + {h} else s.phase.dead))
    case FinishScan => s.(phase := Reaping(s.phase.dead))
    case Reap => s.(tracked := s.tracked - s.phase.gone, phase := Deciding)
    case Decide(delay) => s.(phase := if s.avail || delay == 0 then Draining else Parked)
    case WakeByPermit => s.(permit := false, phase := Draining)
    case WakeByTimer => s.(phase := Draining)
  }

  // ---- The invariant ----

  predicate HandlerOwns(s: System, h: Handle)
  {
    s.handler == StreamSent(h)
  }

  ghost predicate Shape(s: System)
  {
    && s.tracked <= s.added <= s.conns.Keys
    && (forall h <- s.queued :: h in s.conns && h !in s.added)
    && (s.handler.StreamSent? ==> s.handler.h in s.conns && s.handler.h !in s.added && s.handler.h !in s.queued)
    && (s.handler != Waiting ==> s.phase == Parked)
    && (s.phase != Draining && s.phase != Parked ==> s.queued == [])
    && (s.phase.Scanning? ==> s.phase.todo <= s.tracked && s.phase.dead <= s.tracked && s.phase.todo !! s.phase.dead)
    && (s.phase.Reaping? ==> s.phase.gone <= s.tracked)
    && (forall i, j :: 0 <= i < j < |s.queued| ==> s.queued[i] != s.queued[j])
    && (forall h <- s.conns :: h in s.added || h in s.queued || HandlerOwns(s, h))
  }

  ghost predicate AllConnsSound(s: System)
  {
    forall h <- s.conns :: ConnInv(s.conns[h])
  }

  // The worker is certain to visit `h` before it can park again.
  predicate WillVisit(s: System, h: Handle)
  {
    s.phase == Draining || s.phase == Polling || (s.phase.Scanning? && h in s.phase.todo)
  }

  // A change the worker has not seen leaves a permit or is still ahead of it, and a tracked
  // connection it has seen since its last change is quiet.
  ghost predicate NoLostWork(s: System)
    requires s.tracked <= s.conns.Keys
  {
    && (forall h <- s.conns :: s.conns[h].dirty && h !in s.added ==> s.permit || s.phase == Draining)
    && (forall h <- s.tracked :: s.conns[h].dirty ==> s.permit || WillVisit(s, h))
    && (forall h <- s.tracked :: !s.conns[h].dirty && !WillVisit(s, h) ==> Quiet(s.conns[h]))
  }

  // Found Closed in the scan that is going on, and about to leave the socket set.
  predicate Doomed(s: System, h: Handle)
  {
    (s.phase.Scanning? && h in s.phase.dead) || (s.phase.Reaping? && h in s.phase.gone)
  }

  // A connection leaves the socket set exactly by being reaped.
  ghost predicate ReapedLeave(s: System)
  {
    forall h <- s.conns :: s.conns[h].reaped <==> (h in s.added && h !in s.tracked) || Doomed(s, h)
  }

  // An opening SYN on its way has its socket added, or queued ahead of it, and has not been taken.
  predicate SynCovered(s: System, f: Frame)
  {
    f.OpeningSyn? ==> (f.handle in s.queued || f.handle in s.added) && f.handle !in s.consumed
  }

  ghost predicate SynsCovered(s: System)
  {
    && (forall f <- s.ingress :: SynCovered(s, f))
    && (s.handler.Forwarding? ==> SynCovered(s, s.handler.frame))
  }

  // Each connection has one opening SYN.
  ghost predicate SynsDistinct(s: System)
  {
    && (forall i, j :: 0 <= i < j < |s.ingress| && s.ingress[i].OpeningSyn? ==> s.ingress[i] != s.ingress[j])
    && (s.handler.Forwarding? && s.handler.frame.OpeningSyn? ==> s.handler.frame !in s.ingress)
    && (s.handler.StreamSent? ==> s.handler.h !in s.consumed)
    && s.consumed <= s.added
  }

  // A socket takes only SYNs that were sent to its destination.
  ghost predicate TookSound(s: System)
  {
    forall h <- s.conns, g <- s.conns[h].took :: g in s.consumed && g in s.conns && s.conns[g].dest == s.conns[h].dest
  }

  // A queued socket is picked up: the handler is still on its way to the notification, or left it.
  predicate QueueNoticed(s: System)
  {
    s.queued != [] ==> s.permit || s.phase == Draining || s.handler != Waiting
  }

  function Behind(d: Device): nat
  {
    if d.Full? then d.behind else 0
  }

  // The availability flag: while it is down, exactly the frames behind a lost one are queued.
  predicate FramesNoticed(s: System)
  {
    && (s.phase.Scanning? || s.phase.Reaping? || s.phase == Deciding ==> !s.avail)
    && (s.phase == Polling && s.device != Gave ==> !s.avail)
    && (s.phase != Polling ==> s.device != Gave)
    && (!s.avail && s.device != Gave && s.handler != Queued ==> |s.ingress| == Behind(s.device))
    && (s.avail && s.phase == Parked ==> s.permit || s.handler != Waiting)
  }

  ghost predicate Inv(s: System)
  {
    && Shape(s) && AllConnsSound(s) && NoLostWork(s) && QueueNoticed(s) && FramesNoticed(s)
    && ReapedLeave(s) && SynsCovered(s) && SynsDistinct(s) && TookSound(s)
  }

  lemma InitialInv()
    ensures Inv(INITIAL)
  {
  }

  // ---- Every step keeps it ----

  // Replacing one sound connection by another.
  lemma ReplaceKeepsSound(s: System, d: System, h: Handle, c: Conn)
    requires AllConnsSound(s) && ConnInv(c) && d.conns == s.conns[h := c]
    ensures AllConnsSound(d)
  {
  }

  // The parts of the invariant that do not look inside the control blocks.
  ghost predicate TablesInv(s: System)
  {
    && Shape(s) && QueueNoticed(s) && FramesNoticed(s) && ReapedLeave(s)
    && SynsCovered(s) && SynsDistinct(s) && TookSound(s)
  }

  lemma InvSplits(s: System)
    ensures Inv(s) <==> TablesInv(s) && AllConnsSound(s) && NoLostWork(s)
  {
  }

  predicate SameIdentity(c: Conn, d: Conn)
  {
    d.dest == c.dest && d.took == c.took && d.reaped == c.reaped
  }

  lemma ReplaceKeepsTables(s: System, d: System, h: Handle, c: Conn)
    requires TablesInv(s) && h in s.conns && SameIdentity(s.conns[h], c)
    requires d == s.(conns := s.conns[h := c], permit := d.permit) && (s.permit ==> d.permit)
    ensures TablesInv(d)
  {
  }

  lemma StreamCallKeepsWork(s: System, d: System, h: Handle, c: Conn, notified: bool)
    requires Shape(s) && NoLostWork(s) && h in s.conns
    requires d == s.(conns := s.conns[h := c], permit := s.permit || notified)
    requires notified || ((c.dirty ==> s.conns[h].dirty) && (Quiet(s.conns[h]) ==> Quiet(c)))
    requires s.conns[h].dirty ==> c.dirty
    requires notified ==> c.dirty || (Quiet(s.conns[h]) ==> Quiet(c))
    ensures NoLostWork(d)
  {
  }

  lemma UnchangedStaysQuiet(c: Conn, d: Conn)
    requires !Changed(c.ctl, d.ctl) && c.sock == d.sock
    ensures Quiet(c) ==> Quiet(d)
  {
  }

  // A call that notifies nobody leaves nothing new to do.
  lemma CallAccountsForWork(c: Conn, call: Call)
    requires ConnInv(c)
    ensures var d, notified := AfterCall(c, call), Perform(c.ctl, call).notified;
      && ConnInv(d) && SameIdentity(c, d)
      && (c.dirty ==> d.dirty)
      && (!notified ==> (d.dirty ==> c.dirty) && (Quiet(c) ==> Quiet(d)))
      && (notified ==> d.dirty || (Quiet(c) ==> Quiet(d)))
  {
    CallKeeps(c, call);
    if Changed(c.ctl, Perform(c.ctl, call).ctl) {
      ChangeNotifies(c.ctl, call);
    } else {
      UnchangedStaysQuiet(c, AfterCall(c, call));
    }
  }

  lemma StreamCallKeeps(s: System, e: Event)
    requires Inv(s) && e.StreamCall? && Enabled(s, e)
    ensures Inv(Next(s, e))
  {
    var c, notified, d := AfterCall(s.conns[e.h], e.call), Perform(s.conns[e.h].ctl, e.call).notified, Next(s, e);
    CallAccountsForWork(s.conns[e.h], e.call);
    ReplaceKeepsSound(s, d, e.h, c);
    ReplaceKeepsTables(s, d, e.h, c);
    StreamCallKeepsWork(s, d, e.h, c, notified);
    InvSplits(d);
  }

  lemma OpenStreamKeepsTables(s: System, d: System, h: Handle, c: Conn)
    requires TablesInv(s) && s.phase == Parked && s.handler == Waiting && h !in s.conns
    requires d == s.(conns := s.conns[h := c], handler := StreamSent(h)) && c.took == {} && !c.reaped
    ensures TablesInv(d)
  {
    assert Shape(d);
    assert SynsDistinct(d);
    assert ReapedLeave(d);
    assert TookSound(d);
  }

  lemma OpenStreamKeepsWork(s: System, d: System, h: Handle, c: Conn)
    requires Shape(s) && NoLostWork(s) && h !in s.conns && !c.dirty
    requires d == s.(conns := s.conns[h := c], handler := StreamSent(h))
    ensures NoLostWork(d)
  {
  }

  lemma OpenStreamKeeps(s: System, e: Event)
    requires Inv(s) && e.OpenStream? && Enabled(s, e)
    ensures Inv(Next(s, e))
  {
    NewConnInv(e.dest, e.room);
    ReplaceKeepsSound(s, Next(s, e), e.h, NewConn(e.dest, e.room));
    OpenStreamKeepsTables(s, Next(s, e), e.h, NewConn(e.dest, e.room));
    OpenStreamKeepsWork(s, Next(s, e), e.h, NewConn(e.dest, e.room));
    InvSplits(Next(s, e));
  }

  lemma QueueSocketKeeps(s: System, e: Event)
    requires Inv(s) && e.QueueSocket? && Enabled(s, e)
    ensures Inv(Next(s, e))
  {
    var d := Next(s, e);
    assert Shape(d) && NoLostWork(d);
    assert SynsCovered(d) && SynsDistinct(d);
  }

  lemma QueueFrameKeepsTables(s: System, e: Event)
    requires TablesInv(s) && e.QueueFrame? && Enabled(s, e)
    ensures TablesInv(Next(s, e))
  {
    assert SynsCovered(Next(s, e)) && SynsDistinct(Next(s, e));
  }

  lemma QueueFrameKeeps(s: System, e: Event)
    requires Inv(s) && e.QueueFrame? && Enabled(s, e)
    ensures Inv(Next(s, e))
  {
    QueueFrameKeepsTables(s, e);
    InvSplits(Next(s, e));
  }

  lemma TakeSegmentKeepsTables(s: System, e: Event)
    requires TablesInv(s) && e.TakeSegment? && Enabled(s, e)
    ensures TablesInv(Next(s, e))
  {
  }

  lemma TakeSegmentKeeps(s: System, e: Event)
    requires Inv(s) && e.TakeSegment? && Enabled(s, e)
    ensures Inv(Next(s, e))
  {
    TakeSegmentKeepsTables(s, e);
    InvSplits(Next(s, e));
  }

  lemma SetAvailKeepsTables(s: System, e: Event)
    requires TablesInv(s) && e.SetAvail? && Enabled(s, e)
    ensures TablesInv(Next(s, e))
  {
  }

  lemma SetAvailKeeps(s: System, e: Event)
    requires Inv(s) && e.SetAvail? && Enabled(s, e)
    ensures Inv(Next(s, e))
  {
    SetAvailKeepsTables(s, e);
    InvSplits(Next(s, e));
  }

  lemma NotifyKeepsTables(s: System, e: Event)
    requires TablesInv(s) && e.NotifyWorker? && Enabled(s, e)
    ensures TablesInv(Next(s, e))
  {
  }

  lemma NotifyKeeps(s: System, e: Event)
    requires Inv(s) && e.NotifyWorker? && Enabled(s, e)
    ensures Inv(Next(s, e))
  {
    NotifyKeepsTables(s, e);
    InvSplits(Next(s, e));
  }

  lemma AddSocketKeepsTables(s: System, d: System)
    requires TablesInv(s) && s.phase == Draining && s.queued != []
    requires d == s.(queued := s.queued[1..], tracked := s.tracked + {s.queued[0]}, added := s.added + {s.queued[0]})
    ensures TablesInv(d)
  {
    assert s.queued == [s.queued[0]] + s.queued[1..];
    assert Shape(d);
    assert ReapedLeave(d);
    assert SynsCovered(d) && SynsDistinct(d);
  }

  lemma AddSocketKeeps(s: System, e: Event)
    requires Inv(s) && e.AddSocket? && Enabled(s, e)
    ensures Inv(Next(s, e))
  {
    AddSocketKeepsTables(s, Next(s, e));
    InvSplits(Next(s, e));
  }

  lemma BeginPollKeepsTables(s: System, e: Event)
    requires TablesInv(s) && e.BeginPoll? && Enabled(s, e)
    ensures TablesInv(Next(s, e))
  {
  }

  lemma BeginPollKeeps(s: System, e: Event)
    requires Inv(s) && e.BeginPoll? && Enabled(s, e)
    ensures Inv(Next(s, e))
  {
    BeginPollKeepsTables(s, e);
    InvSplits(Next(s, e));
  }

  lemma PoppedKeepsSyns(s: System, d: System)
    requires Shape(s) && SynsCovered(s) && SynsDistinct(s) && s.phase == Polling && s.ingress != [] && d == Popped(s)
    ensures SynsCovered(d) && SynsDistinct(d) && s.consumed <= d.consumed <= d.added
  {
    var f := s.ingress[0];
    assert f in s.ingress && SynCovered(s, f) && s.queued == [];
    assert d.consumed <= d.added;
    forall i | 0 <= i < |d.ingress|
      ensures SynCovered(d, d.ingress[i])
    {
      assert d.ingress[i] == s.ingress[i + 1] && d.ingress[i] in s.ingress;
    }
  }

  lemma PoppedKeepsTables(s: System, d: System)
    requires TablesInv(s) && s.phase == Polling && s.ingress != [] && d == Popped(s)
    ensures TablesInv(d)
  {
    PoppedKeepsSyns(s, d);
  }

  lemma PoppedKeeps(s: System)
    requires Inv(s) && s.phase == Polling && s.ingress != []
    ensures Inv(Popped(s))
  {
    PoppedKeepsTables(s, Popped(s));
    InvSplits(Popped(s));
  }

  lemma AnswerKeepsTables(s: System, d: System)
    requires TablesInv(s) && s.phase == Polling && d.device != Gave && |s.ingress| == Behind(d.device)
    requires d == s.(avail := false, device := d.device)
    ensures TablesInv(d)
  {
  }

  lemma LoseFrameKeeps(s: System, e: Event)
    requires Inv(s) && e.LoseFrame? && Enabled(s, e)
    ensures Inv(Next(s, e))
  {
    PoppedKeeps(s);
    AnswerKeepsTables(Popped(s), Next(s, e));
    InvSplits(Next(s, e));
  }

  lemma PollReplaceKeeps(s: System, d: System, h: Handle, c: Conn)
    requires Inv(s) && s.phase == Polling && h in s.tracked && h in s.conns
    requires ConnInv(c) && SameIdentity(s.conns[h], c) && d == s.(conns := s.conns[h := c])
    ensures Inv(d)
  {
    ReplaceKeepsSound(s, d, h, c);
    ReplaceKeepsTables(s, d, h, c);
    InvSplits(d);
  }

  lemma GiveSegmentKeeps(s: System, e: Event)
    requires Inv(s) && e.GiveSegment? && Enabled(s, e)
    ensures Inv(Next(s, e))
  {
    PoppedKeeps(s);
    PollKeeps(s.conns[e.h], e.sock, e.delivered);
    PollReplaceKeeps(Popped(s), Next(s, e), e.h, AfterPoll(s.conns[e.h], e.sock, e.delivered));
  }

  lemma TimerKeeps(s: System, e: Event)
    requires Inv(s) && e.TimerFires? && Enabled(s, e)
    ensures Inv(Next(s, e))
  {
    PollKeeps(s.conns[e.h], e.sock, []);
    PollReplaceKeeps(s, Next(s, e), e.h, AfterPoll(s.conns[e.h], e.sock, []));
  }

  lemma TookSoundAfterSyn(s: System, d: System, h: Handle, sock: Sock, g: Handle)
    requires TookSound(s) && h in s.conns && g in s.conns && g in s.consumed && s.conns[g].dest == s.conns[h].dest
    requires d == s.(conns := s.conns[h := AfterSyn(s.conns[h], sock, g)])
    ensures TookSound(d)
  {
  }

  lemma SynKeepsTables(s: System, d: System, h: Handle, sock: Sock, g: Handle)
    requires TablesInv(s) && s.phase == Polling
    requires h in s.conns && g in s.conns && g in s.consumed && s.conns[g].dest == s.conns[h].dest
    requires d == s.(conns := s.conns[h := AfterSyn(s.conns[h], sock, g)])
    ensures TablesInv(d)
  {
    TookSoundAfterSyn(s, d, h, sock, g);
    assert Shape(d) && ReapedLeave(d);
  }

  lemma SynReplaceKeeps(s: System, d: System, h: Handle, sock: Sock, g: Handle)
    requires Inv(s) && s.phase == Polling
    requires h in s.conns && SynStep(s.conns[h].sock, sock)
    requires g in s.conns && g in s.consumed && s.conns[g].dest == s.conns[h].dest
    requires d == s.(conns := s.conns[h := AfterSyn(s.conns[h], sock, g)])
    ensures Inv(d)
  {
    SynKeeps(s.conns[h], sock, g);
    ReplaceKeepsSound(s, d, h, AfterSyn(s.conns[h], sock, g));
    SynKeepsTables(s, d, h, sock, g);
    InvSplits(d);
  }

  lemma GiveSynKeeps(s: System, e: Event)
    requires Inv(s) && e.GiveSyn? && Enabled(s, e)
    ensures Inv(Next(s, e))
  {
    PoppedKeeps(s);
    SynReplaceKeeps(Popped(s), Next(s, e), e.h, e.sock, s.ingress[0].handle);
  }

  lemma FindNoFrameKeeps(s: System, e: Event)
    requires Inv(s) && e.FindNoFrame? && Enabled(s, e)
    ensures Inv(Next(s, e))
  {
    AnswerKeepsTables(s, Next(s, e));
    InvSplits(Next(s, e));
  }

  lemma EndPollKeepsTables(s: System, e: Event)
    requires TablesInv(s) && e.EndPoll? && Enabled(s, e)
    ensures TablesInv(Next(s, e))
  {
  }

  lemma EndPollKeeps(s: System, e: Event)
    requires Inv(s) && e.EndPoll? && Enabled(s, e)
    ensures Inv(Next(s, e))
  {
    EndPollKeepsTables(s, e);
    InvSplits(Next(s, e));
  }

  lemma VisitKeepsWork(s: System, d: System, h: Handle, c: Conn, dead: set<Handle>)
    requires Shape(s) && NoLostWork(s) && s.phase.Scanning? && h in s.phase.todo && h in s.conns
    requires Quiet(c) && !c.dirty
    requires d == s.(conns := s.conns[h := c], phase := Scanning(s.phase.todo - {h}, dead))
    ensures NoLostWork(d)
  {
  }

  lemma VisitKeepsTables(s: System, d: System, h: Handle, c: Conn, dead: set<Handle>)
    requires TablesInv(s) && s.phase.Scanning? && h in s.phase.todo && h in s.conns
    requires c.dest == s.conns[h].dest && c.took == s.conns[h].took
    requires dead == (if c.reaped then s.phase.dead + {h} else s.phase.dead)
    requires d == s.(conns := s.conns[h := c], phase := Scanning(s.phase.todo - {h}, dead))
    ensures TablesInv(d)
  {
    assert Shape(d) && ReapedLeave(d);
  }

  // A visit reaps exactly a connection it finds Closed.
  lemma VisitReaps(c: Conn, recvFault: Option<nat>, sendFault: Option<nat>)
    requires FaultsFit(c.ctl, c.sock, recvFault, sendFault)
    ensures var d := AfterVisit(c, recvFault, sendFault);
      && d.dest == c.dest && d.took == c.took
      && (d.reaped <==> c.reaped || c.sock.state == ClosedState)
      && Scan(c.ctl, c.sock, recvFault, sendFault).reaped == (c.sock.state == ClosedState)
  {
  }

  lemma VisitOneKeeps(s: System, e: Event)
    requires Inv(s) && e.VisitOne? && Enabled(s, e)
    ensures Inv(Next(s, e))
  {
    var c, d := AfterVisit(s.conns[e.h], e.recvFault, e.sendFault), Next(s, e);
    VisitKeeps(s.conns[e.h], e.recvFault, e.sendFault);
    VisitQuiets(s.conns[e.h], e.recvFault, e.sendFault);
    VisitReaps(s.conns[e.h], e.recvFault, e.sendFault);
    assert !s.conns[e.h].reaped;
    ReplaceKeepsSound(s, d, e.h, c);
    VisitKeepsWork(s, d, e.h, c, d.phase.dead);
    VisitKeepsTables(s, d, e.h, c, d.phase.dead);
    InvSplits(d);
  }

  lemma FinishScanKeepsTables(s: System, e: Event)
    requires TablesInv(s) && e.FinishScan? && Enabled(s, e)
    ensures TablesInv(Next(s, e))
  {
  }

  lemma FinishScanKeeps(s: System, e: Event)
    requires Inv(s) && e.FinishScan? && Enabled(s, e)
    ensures Inv(Next(s, e))
  {
    FinishScanKeepsTables(s, e);
    InvSplits(Next(s, e));
  }

  lemma ReapKeepsTables(s: System, e: Event)
    requires TablesInv(s) && e.Reap? && Enabled(s, e)
    ensures TablesInv(Next(s, e))
  {
    assert Shape(Next(s, e)) && ReapedLeave(Next(s, e));
  }

  lemma ReapKeeps(s: System, e: Event)
    requires Inv(s) && e.Reap? && Enabled(s, e)
    ensures Inv(Next(s, e))
  {
    ReapKeepsTables(s, e);
    InvSplits(Next(s, e));
  }

  lemma DecideKeepsTables(s: System, e: Event)
    requires TablesInv(s) && e.Decide? && Enabled(s, e)
    ensures TablesInv(Next(s, e))
  {
  }

  lemma DecideKeeps(s: System, e: Event)
    requires Inv(s) && e.Decide? && Enabled(s, e)
    ensures Inv(Next(s, e))
  {
    DecideKeepsTables(s, e);
    InvSplits(Next(s, e));
  }

  lemma WakeKeeps(s: System, permit: bool)
    requires Inv(s) && s.phase == Parked && s.handler == Waiting
    ensures Inv(s.(permit := permit, phase := Draining))
  {
    var d := s.(permit := permit, phase := Draining);
    assert Shape(d) && ReapedLeave(d);
    assert NoLostWork(d);
    InvSplits(d);
  }

  lemma HandlerStepKeeps(s: System, e: Event)
    requires Inv(s) && Enabled(s, e)
    requires e.OpenStream? || e.QueueSocket? || e.QueueFrame? || e.TakeSegment? || e.DiscardFrame? || e.SetAvail?
             || e.NotifyWorker?
    ensures Inv(Next(s, e))
  {
    match e
    case OpenStream(_, _, _) => OpenStreamKeeps(s, e);
    case QueueSocket => QueueSocketKeeps(s, e);
    case QueueFrame => QueueFrameKeeps(s, e);
    case NotifyWorker => NotifyKeeps(s, e);
    case TakeSegment => TakeSegmentKeeps(s, e);
    case SetAvail => SetAvailKeeps(s, e);
    case DiscardFrame =>
  }

  lemma PollStepKeeps(s: System, e: Event)
    requires Inv(s) && Enabled(s, e) && s.phase == Polling && !e.StreamCall?
    ensures Inv(Next(s, e))
  {
    match e
    case GiveSyn(_, _) => GiveSynKeeps(s, e);
    case GiveSegment(_, _, _) => GiveSegmentKeeps(s, e);
    case IgnoreFrame => PoppedKeeps(s);
    case LoseFrame => LoseFrameKeeps(s, e);
    case FindNoFrame => FindNoFrameKeeps(s, e);
    case TimerFires(_, _) => TimerKeeps(s, e);
    case EndPoll => EndPollKeeps(s, e);
  }

  lemma WorkerStepKeeps(s: System, e: Event)
    requires Inv(s) && Enabled(s, e)
    requires e.AddSocket? || e.BeginPoll? || e.VisitOne? || e.FinishScan? || e.Reap? || e.Decide? || e.WakeByPermit?
             || e.WakeByTimer?
    ensures Inv(Next(s, e))
  {
    match e
    case AddSocket => AddSocketKeeps(s, e);
    case BeginPoll => BeginPollKeeps(s, e);
    case VisitOne(_, _, _) => VisitOneKeeps(s, e);
    case FinishScan => FinishScanKeeps(s, e);
    case Reap => ReapKeeps(s, e);
    case Decide(_) => DecideKeeps(s, e);
    case WakeByPermit => WakeKeeps(s, false);
    case WakeByTimer => WakeKeeps(s, s.permit);
  }

  lemma StepKeeps(s: System, e: Event)
    requires Inv(s) && Enabled(s, e)
    ensures Inv(Next(s, e))
  {
    if e.StreamCall? {
      StreamCallKeeps(s, e);
    } else if s.phase == Polling {
      PollStepKeeps(s, e);
    } else if e.AddSocket? || e.BeginPoll? || e.VisitOne? || e.FinishScan? || e.Reap? || e.Decide? || e.WakeByPermit?
              || e.WakeByTimer? {
      WorkerStepKeeps(s, e);
    } else {
      HandlerStepKeeps(s, e);
    }
  }

  // ---- Runs ----

  // The state after a sequence of events, if each was enabled when it happened.
  function Run(es: seq<Event>): Option<System>
  {
    if es == [] then Some(INITIAL)
    else
      var e, before := es[|es| - 1], Run(es[..|es| - 1]);
      if before.Some? && Enabled(before.value, e) then Some(Next(before.value, e)) else None
  }

  lemma RunSnoc(es: seq<Event>, e: Event)
    requires Run(es).Some? && Enabled(Run(es).value, e)
    ensures Run(es + [e]) == Some(Next(Run(es).value, e))
  {
    assert (es + [e])[..|es|] == es;
  }

  lemma {:induction false} RunInv(es: seq<Event>)
    requires Run(es).Some?
    ensures Inv(Run(es).value)
  {
    if es == [] {
      InitialInv();
    } else {
      RunInv(es[..|es| - 1]);
      StepKeeps(Run(es[..|es| - 1]).value, es[|es| - 1]);
    }
  }

  // No lost wake-up, worker side: a parked worker without a permit has seen every change. What it may
  // still owe a connection is a FIN behind data it has just handed over (`FinPendingExactly` says
  // which visits leave one) or the reaping of a Closed socket (`ReapOwedExactly` says which).
  lemma ParkedWorkerHasSeenEverything(es: seq<Event>)
    requires Run(es).Some? && Run(es).value.phase == Parked && !Run(es).value.permit
    ensures var s := Run(es).value;
      && s.tracked <= s.conns.Keys
      && (s.handler == Waiting ==> s.queued == [])
      && forall h <- s.tracked ::
           var c := s.conns[h];
           !c.dirty && (Settled(c.ctl, c.sock) || FinPending(c.ctl, c.sock) || c.sock.state == ClosedState)
  {
    RunInv(es);
  }

  // No lost wake-up, task side: a task that was told to wait is the registered one, and what it
  // waits for is not there; with the worker parked it is not in the socket either, and nobody waits
  // on a connection that the worker no longer visits.
  lemma WaitingTasksHaveNothing(es: seq<Event>, h: Handle)
    requires Run(es).Some? && h in Run(es).value.conns
    ensures var s := Run(es).value; var c := s.conns[h];
      && (forall t <- c.waitingRead ::
            c.ctl.recvWaker == Some(t) && c.ctl.recvBuffer == [] && c.ctl.recvState != Closed)
      && (forall t <- c.waitingWrite ::
            && c.ctl.sendWaker == Some(t) && c.ctl.sendState != Closed
            && (c.ctl.sendState == Normal ==> |c.ctl.sendBuffer| == CAPACITY))
      && (s.phase == Parked && !s.permit && h in s.tracked && c.sock.state != ClosedState ==>
            && (c.waitingRead != {} ==> c.sock.unread == [])
            && (c.waitingRead != {} && !c.dropped ==>
                  c.sock.state in {Listen, SynReceived, Established, FinWait1, FinWait2})
            && (c.waitingWrite != {} && c.ctl.sendState == Normal ==> !c.sock.CanSend()))
      && (h in s.added && h !in s.tracked ==> c.waitingRead == {} == c.waitingWrite)
  {
    RunInv(es);
    var s := Run(es).value;
    assert ConnInv(s.conns[h]);
    if h in s.tracked && s.phase == Parked && !s.permit {
      assert Quiet(s.conns[h]);
    }
  }

  // Frames do not wait for a parked worker, with one exception: those that stood behind a frame lost
  // to a full egress queue. They stay until the next wake-up.
  lemma FramesWaitExactly(es: seq<Event>)
    requires Run(es).Some? && Run(es).value.phase == Parked && !Run(es).value.permit
    requires Run(es).value.handler == Waiting
    ensures var s := Run(es).value;
      s.ingress != [] <==> s.device.Full? && s.device.behind > 0
  {
    RunInv(es);
  }

  // Send conservation with ordered close: no FIN before it is asked for and all is handed over, no
  // write after it.
  lemma SendConservation(es: seq<Event>, h: Handle, task: Task, data: seq<byte>)
    requires Run(es).Some? && h in Run(es).value.conns
    ensures var c := Run(es).value.conns[h];
      && c.accepted == c.handed + c.ctl.sendBuffer
      && (c.finSent ==> c.asked && c.handed == c.accepted && PollWrite(c.ctl, task, data).reply == BrokenPipe)
  {
    RunInv(es);
    assert ConnInv(Run(es).value.conns[h]);
  }

  // Receive conservation, and when end-of-file is the whole truth: a read that returns EOF, and not
  // just nothing for lack of room, has
  // returned everything the worker took, and everything the peer sent exactly if reading ended with
  // the half-close check or with the reaping of a socket that was found empty. `EndHidesExactly`
  // gives the same condition for the visit, `RunsExtend` says that it then stands.
  lemma EofIsHonest(es: seq<Event>, h: Handle, task: Task, room: nat)
    requires Run(es).Some? && h in Run(es).value.conns
    ensures var c := Run(es).value.conns[h];
      && c.taken == c.returned + c.ctl.recvBuffer
      && c.arrived == c.taken + c.sock.unread
      && ((room > 0 || c.ctl.recvBuffer == []) && PollRead(c.ctl, task, room).reply == Bytes([]) ==>
            && c.ending != Open
            && c.returned == c.taken
            && (c.returned == c.arrived <==> c.ending == HalfClosed || c.ending == Reaped(0)))
  {
    RunInv(es);
    var c := Run(es).value.conns[h];
    assert ConnInv(c);
    assert |c.arrived| == |c.taken| + |c.sock.unread|;
    ReadAnswers(c.ctl, task, room);
  }

  // Along a run no byte of any history is ever revised, no half of a stream moves back, and what
  // ended stays ended.
  ghost predicate ConnExtends(c: Conn, d: Conn)
  {
    && c.accepted <= d.accepted && c.handed <= d.handed && c.taken <= d.taken
    && c.returned <= d.returned && c.arrived <= d.arrived
    && Forward(c.ctl, d.ctl)
    && (c.finSent ==> d.finSent && d.accepted == c.accepted)
    && EndStands(c, d)
  }

  ghost predicate Extends(s: System, d: System)
  {
    forall h <- s.conns :: h in d.conns && ConnExtends(s.conns[h], d.conns[h])
  }

  lemma CallExtends(c: Conn, call: Call)
    requires ConnInv(c)
    ensures ConnExtends(c, AfterCall(c, call))
  {
    CallMovesForward(c, call);
  }

  lemma VisitExtends(c: Conn, recvFault: Option<nat>, sendFault: Option<nat>)
    requires ConnInv(c) && FaultsFit(c.ctl, c.sock, recvFault, sendFault)
    ensures ConnExtends(c, AfterVisit(c, recvFault, sendFault))
  {
    VisitMovesForward(c, recvFault, sendFault);
    VisitLetsEndStand(c, recvFault, sendFault);
  }

  lemma PollExtends(c: Conn, sock: Sock, delivered: seq<byte>)
    requires ConnInv(c) && PollStep(c.sock, sock, delivered)
    ensures ConnExtends(c, AfterPoll(c, sock, delivered))
  {
    PollLetsEndStand(c, sock, delivered);
  }

  lemma SynExtends(c: Conn, sock: Sock, syn: nat)
    requires SynStep(c.sock, sock)
    ensures ConnExtends(c, AfterSyn(c, sock, syn))
  {
  }

  lemma ReplaceExtends(s: System, d: System, h: Handle)
    requires h in s.conns && h in d.conns && ConnExtends(s.conns[h], d.conns[h])
    requires d.conns == s.conns[h := d.conns[h]]
    ensures Extends(s, d)
  {
  }

  lemma OtherStepExtends(s: System, e: Event)
    requires Enabled(s, e)
    requires !e.StreamCall? && !e.VisitOne? && !e.GiveSyn? && !e.GiveSegment? && !e.TimerFires?
    ensures Extends(s, Next(s, e))
  {
    if !e.OpenStream? {
      assert Next(s, e).conns == s.conns;
    }
  }

  lemma PollStepExtends(s: System, e: Event)
    requires Inv(s) && Enabled(s, e) && (e.GiveSyn? || e.GiveSegment? || e.TimerFires?)
    ensures Extends(s, Next(s, e))
  {
    match e
    case GiveSegment(h, sock, delivered) =>
      PollExtends(s.conns[h], sock, delivered);
      ReplaceExtends(s, Next(s, e), h);
    case TimerFires(h, sock) =>
      PollExtends(s.conns[h], sock, []);
      ReplaceExtends(s, Next(s, e), h);
    case GiveSyn(h, sock) =>
      SynExtends(s.conns[h], sock, s.ingress[0].handle);
      ReplaceExtends(s, Next(s, e), h);
  }

  lemma StepExtends(s: System, e: Event)
    requires Inv(s) && Enabled(s, e)
    ensures Extends(s, Next(s, e))
  {
    match e
    case StreamCall(h, call) =>
      CallExtends(s.conns[h], call);
      ReplaceExtends(s, Next(s, e), h);
    case VisitOne(h, rf, sf) =>
      VisitExtends(s.conns[h], rf, sf);
      ReplaceExtends(s, Next(s, e), h);
    case GiveSegment(_, _, _) => PollStepExtends(s, e);
    case TimerFires(_, _) => PollStepExtends(s, e);
    case GiveSyn(_, _) => PollStepExtends(s, e);
    case _ => OtherStepExtends(s, e);
  }

  lemma ExtendsTransitive(s: System, d: System, f: System)
    requires Extends(s, d) && Extends(d, f)
    ensures Extends(s, f)
  {
  }

  lemma LastStepExtends(es: seq<Event>, e: Event)
    requires Run(es + [e]).Some?
    ensures Run(es).Some? && Extends(Run(es).value, Run(es + [e]).value)
  {
    assert (es + [e])[..|es|] == es;
    RunInv(es);
    StepExtends(Run(es).value, e);
  }

  lemma {:induction false} RunsExtend(es: seq<Event>, more: seq<Event>)
    requires Run(es + more).Some?
    ensures Run(es).Some? && Extends(Run(es).value, Run(es + more).value)
    decreases |more|
  {
    if more == [] {
      assert es + more == es;
    } else {
      var init, last := more[..|more| - 1], more[|more| - 1];
      assert es + more == (es + init) + [last];
      LastStepExtends(es + init, last);
      RunsExtend(es, init);
      ExtendsTransitive(Run(es).value, Run(es + init).value, Run(es + more).value);
    }
  }

  // Listening socket before SYN. While the stack polls, an opening SYN's socket has been added, and it
  // is in the socket set exactly if it has not been reaped. Unless the socket has taken other SYNs
  // sent to its destination, it is there listening exactly if the worker has not closed it, which
  // takes a stream that shut down or was dropped without anything accepted from it.
  lemma SynFindsItsSocket(es: seq<Event>, h: Handle)
    requires Run(es).Some? && Run(es).value.phase == Polling && OpeningSyn(h) in Run(es).value.ingress
    ensures var s := Run(es).value;
      && h in s.conns && h in s.added
      && (h in s.tracked <==> !s.conns[h].reaped)
      && (s.conns[h].took == {} ==>
            && (h in s.tracked && s.conns[h].sock.state == Listen <==> !s.conns[h].finSent)
            && (s.conns[h].finSent ==> s.conns[h].accepted == [] && s.conns[h].ctl.sendState != Normal))
      && forall g <- s.conns[h].took :: g != h && g in s.conns && s.conns[g].dest == s.conns[h].dest
  {
    RunInv(es);
    var s := Run(es).value;
    assert SynCovered(s, OpeningSyn(h));
    assert ConnInv(s.conns[h]);
  }

  // ---- Four runs that mark the limits of the guarantees ----

  lemma Follow(es: seq<Event>, s: System, e: Event, d: System) returns (longer: seq<Event>)
    requires Run(es) == Some(s) && Enabled(s, e) && Next(s, e) == d
    ensures Run(longer) == Some(d)
  {
    RunSnoc(es, e);
    longer := es + [e];
  }

  // A bridge that has the one connection `c` in its socket set.
  function One(c: Conn, ingress: seq<Frame>, avail: bool, device: Device, consumed: set<Handle>, phase: Phase): System
  {
    System(map[0 := c], [], {0}, {0}, ingress, avail, device, consumed, false, phase, Waiting)
  }

  // A poll of an idle device.
  lemma PollNothing() returns (es: seq<Event>)
    ensures Run(es) == Some(INITIAL.(phase := Scanning({}, {})))
  {
    es := Follow([], INITIAL, BeginPoll, INITIAL.(phase := Polling, device := Gave));
    es := Follow(es, Run(es).value, FindNoFrame, INITIAL.(phase := Polling));
    es := Follow(es, Run(es).value, EndPoll, INITIAL.(phase := Scanning({}, {})));
  }

  lemma ParkInitially() returns (es: seq<Event>)
    ensures Run(es) == Some(INITIAL.(phase := Parked))
  {
    es := PollNothing();
    assert INITIAL.tracked - {} == {};
    es := Rest(es, Run(es).value, {});
  }

  // The packet handler forwards a segment to a parked worker.
  lemma ForwardSegment(es: seq<Event>, s: System) returns (longer: seq<Event>)
    requires Run(es) == Some(s) && s.phase == Parked && s.handler == Waiting
    ensures Run(longer) == Some(s.(ingress := s.ingress + [Segment], avail := true, permit := true))
  {
    var d := s.(handler := Forwarding(Segment));
    longer := Follow(es, s, TakeSegment, d);
    var f := d.(ingress := s.ingress + [Segment], handler := Queued);
    longer := Follow(longer, d, QueueFrame, f);
    d := f.(avail := true, handler := AvailSet);
    longer := Follow(longer, f, SetAvail, d);
    longer := Follow(longer, d, NotifyWorker, d.(permit := true, handler := Waiting));
  }

  // It finishes the opening of connection 0.
  lemma ForwardSyn(es: seq<Event>, s: System) returns (longer: seq<Event>)
    requires Run(es) == Some(s) && s.phase == Parked && s.handler == StreamSent(0) && s.queued == []
    ensures Run(longer) == Some(s.(queued := [0], ingress := s.ingress + [OpeningSyn(0)], avail := true, permit := true,
                                   handler := Waiting))
  {
    var d := s.(queued := [0], handler := Forwarding(OpeningSyn(0)));
    longer := Follow(es, s, QueueSocket, d);
    var f := d.(ingress := s.ingress + [OpeningSyn(0)], handler := Queued);
    longer := Follow(longer, d, QueueFrame, f);
    d := f.(avail := true, handler := AvailSet);
    longer := Follow(longer, f, SetAvail, d);
    longer := Follow(longer, d, NotifyWorker, d.(permit := true, handler := Waiting));
  }

  // The worker wakes, adds the queued socket of connection 0 and starts to poll.
  lemma WakeAndAdd(es: seq<Event>, s: System, c: Conn) returns (longer: seq<Event>)
    requires Run(es) == Some(s) && s.phase == Parked && s.handler == Waiting && s.permit
    requires s.conns == map[0 := c] && s.queued == [0] && s.tracked == s.added == {} && s.consumed == {}
    ensures Run(longer) == Some(One(c, s.ingress, s.avail, Gave, {}, Polling))
  {
    var d := s.(permit := false, phase := Draining);
    longer := Follow(es, s, WakeByPermit, d);
    var f := One(c, s.ingress, s.avail, s.device, {}, Draining);
    longer := Follow(longer, d, AddSocket, f);
    longer := Follow(longer, f, BeginPoll, f.(phase := Polling, device := Gave));
  }

  // It wakes for a segment and starts to poll.
  lemma WakeForSegment(es: seq<Event>, c: Conn, consumed: set<Handle>) returns (longer: seq<Event>)
    requires Run(es) == Some(One(c, [], false, Empty, consumed, Parked))
    ensures Run(longer) == Some(One(c, [Segment], true, Gave, consumed, Polling))
  {
    longer := ForwardSegment(es, Run(es).value);
    var s := One(c, [Segment], true, Empty, consumed, Draining);
    longer := Follow(longer, Run(longer).value, WakeByPermit, s);
    longer := Follow(longer, s, BeginPoll, s.(phase := Polling, device := Gave));
  }

  // From the end of a poll through the visit of the only connection.
  lemma VisitFirst(es: seq<Event>, c: Conn, s: System) returns (longer: seq<Event>)
    requires Run(es) == Some(s) && s == One(c, s.ingress, false, s.device, s.consumed, Polling) && s.device != Gave
    requires FaultsFit(c.ctl, c.sock, None, None)
    ensures Run(longer) == Some(One(AfterVisit(c, None, None), s.ingress, false, s.device, s.consumed,
                                    Scanning({}, if c.sock.state == ClosedState then {0} else {})))
  {
    longer := Follow(es, s, EndPoll, s.(phase := Scanning({0}, {})));
    longer := VisitScanned(longer, c, s.(phase := Scanning({0}, {})));
  }

  lemma VisitScanned(es: seq<Event>, c: Conn, s: System) returns (longer: seq<Event>)
    requires Run(es) == Some(s) && s == One(c, s.ingress, false, s.device, s.consumed, Scanning({0}, {}))
    requires FaultsFit(c.ctl, c.sock, None, None)
    ensures Run(longer) == Some(One(AfterVisit(c, None, None), s.ingress, false, s.device, s.consumed,
                                    Scanning({}, if c.sock.state == ClosedState then {0} else {})))
  {
    var v := AfterVisit(c, None, None);
    VisitReaps(c, None, None);
    assert map[0 := c][0 := v] == map[0 := v] && {0} - {0} == {} && {} + {0} == {0};
    longer := Follow(es, s, VisitOne(0, None, None),
                     s.(conns := map[0 := v], phase := Scanning({}, if c.sock.state == ClosedState then {0} else {})));
  }

  // From there to the next rest, if nothing is reaped.
  lemma VisitAndRest(es: seq<Event>, c: Conn, s: System) returns (longer: seq<Event>)
    requires Run(es) == Some(s) && s == One(c, s.ingress, false, s.device, s.consumed, Polling) && s.device != Gave
    requires c.sock.state != ClosedState && FaultsFit(c.ctl, c.sock, None, None)
    ensures Run(longer) == Some(One(AfterVisit(c, None, None), s.ingress, false, s.device, s.consumed, Parked))
  {
    longer := VisitFirst(es, c, s);
    assert {0} - {} == {0};
    longer := Rest(longer, Run(longer).value, {});
  }

  lemma Rest(es: seq<Event>, s: System, dead: set<Handle>) returns (longer: seq<Event>)
    requires Run(es) == Some(s) && s.phase == Scanning({}, dead) && !s.avail
    ensures Run(longer) == Some(s.(tracked := s.tracked - dead, phase := Parked))
  {
    longer := Follow(es, s, FinishScan, s.(phase := Reaping(dead)));
    var d := s.(tracked := s.tracked - dead, phase := Deciding);
    longer := Follow(longer, Run(longer).value, Reap, d);
    longer := Follow(longer, d, Decide(1), d.(phase := Parked));
  }

  lemma OpenEarly(es: seq<Event>, s: System) returns (longer: seq<Event>)
    requires Run(es) == Some(s) && s.phase == Parked && s.handler == Waiting && s.conns == map[]
    ensures Run(longer) == Some(s.(conns := map[0 := NewConn(1, 9)], handler := StreamSent(0)))
  {
    longer := Follow(es, s, OpenStream(0, 1, 9), s.(conns := map[0 := NewConn(1, 9)], handler := StreamSent(0)));
  }

  lemma CallFirst(es: seq<Event>, s: System, c: Conn, call: Call) returns (longer: seq<Event>)
    requires Run(es) == Some(s) && s.conns == map[0 := c] && !c.dropped && Perform(c.ctl, call).notified
    ensures Run(longer) == Some(s.(conns := map[0 := AfterCall(c, call)], permit := true))
  {
    longer := Follow(es, s, StreamCall(0, call), s.(conns := map[0 := AfterCall(c, call)], permit := true));
  }

  // A listening connection after its own opening SYN.
  function Opened(c: Conn): Conn
  {
    AfterSyn(c, c.sock.(state := SynReceived), 0)
  }

  // The opening SYN of connection 0, taken in one poll, and the visit behind it.
  lemma HandshakeFirst(es: seq<Event>, s: System, c: Conn) returns (longer: seq<Event>, d: Conn)
    requires Run(es) == Some(s) && s == Opening(c, s.permit)
    requires c.sock == Sock(Listen, [], 9) && !ShouldClose(c.ctl)
    ensures d == AfterVisit(Opened(c), None, None) && d.sock.state == SynReceived
    ensures Run(longer) == Some(One(d, [], false, Empty, {0}, Parked))
  {
    longer := ForwardSyn(es, s);
    longer := WakeAndAdd(longer, Run(longer).value, c);
    var f := One(Opened(c), [], true, Gave, {0}, Polling);
    assert map[0 := c][0 := Opened(c)] == map[0 := Opened(c)];
    longer := Follow(longer, Run(longer).value, GiveSyn(0, Opened(c).sock), f);
    longer := Follow(longer, f, FindNoFrame, f.(avail := false, device := Empty));
    d := AfterVisit(Opened(c), None, None);
    longer := VisitAndRest(longer, Opened(c), Run(longer).value);
  }

  // One segment of a poll, taken by connection 0.
  lemma TakesSegment(es: seq<Event>, c: Conn, rest: seq<Frame>, avail: bool, sock: Sock, delivered: seq<byte>)
    returns (longer: seq<Event>)
    requires Run(es) == Some(One(c, [Segment] + rest, avail, Gave, {0}, Polling))
    requires SegmentStep(c.sock, sock, delivered)
    ensures Run(longer) == Some(One(AfterPoll(c, sock, delivered), rest, avail, Gave, {0}, Polling))
  {
    var d := AfterPoll(c, sock, delivered);
    assert map[0 := c][0 := d] == map[0 := d] && ([Segment] + rest)[1..] == rest;
    longer := Follow(es, Run(es).value, GiveSegment(0, sock, delivered), One(d, rest, avail, Gave, {0}, Polling));
  }

  // The peer's acknowledgement, and the visit that sends what was written.
  lemma EstablishFirst(es: seq<Event>, c: Conn) returns (longer: seq<Event>)
    requires Run(es) == Some(One(c, [], false, Empty, {0}, Parked)) && c.sock == Sock(SynReceived, [], 9)
    requires FaultsFit(c.ctl, c.sock.(state := Established), None, None)
    ensures Run(longer) == Some(One(AfterVisit(AfterPoll(c, c.sock.(state := Established), []), None, None),
                                    [], false, Empty, {0}, Parked))
  {
    var sock := c.sock.(state := Established);
    longer := WakeForSegment(es, c, {0});
    assert [Segment] + [] == [Segment];
    longer := TakesSegment(longer, c, [], true, sock, []);
    var s := One(AfterPoll(c, sock, []), [], true, Gave, {0}, Polling);
    longer := Follow(longer, s, FindNoFrame, s.(avail := false, device := Empty));
    longer := VisitAndRest(longer, AfterPoll(c, sock, []), Run(longer).value);
  }

  // The state in which the opening of connection 0 is under way.
  function Opening(c: Conn, permit: bool): System
  {
    INITIAL.(phase := Parked, permit := permit, conns := map[0 := c], handler := StreamSent(0))
  }

  // A stream that takes a byte and is dropped while the handler is still announcing it.
  lemma WriteAndDropEarly() returns (es: seq<Event>, c: Conn)
    ensures c.ctl == Control([7], None, [], None, Close, Close) && c.sock == Sock(Listen, [], 9)
    ensures Run(es) == Some(Opening(c, true))
  {
    es := ParkInitially();
    es := OpenEarly(es, Run(es).value);
    c := NewConn(1, 9);
    es := CallFirst(es, Opening(c, false), c, Write(5, [7]));
    c := AfterCall(c, Write(5, [7]));
    es := CallFirst(es, Opening(c, true), c, Drop);
    c := AfterCall(c, Drop);
  }

  lemma SynVisited(c: Conn)
    requires c.ctl == Control([7], None, [], None, Close, Close) && c.sock == Sock(Listen, [], 9)
    ensures var d := AfterVisit(Opened(c), None, None);
      d.ctl == Control([7], None, [], None, Close, Close) && d.sock == Sock(SynReceived, [], 9)
  {
  }

  lemma EstablishedVisited(c: Conn)
    requires c.ctl == Control([7], None, [], None, Close, Close) && c.sock == Sock(SynReceived, [], 9)
    ensures var d := AfterVisit(AfterPoll(c, c.sock.(state := Established), []), None, None);
      !d.dirty && FinPending(d.ctl, d.sock)
  {
  }

  // The FIN behind the data is left to the timer: the visit that empties the buffer has already passed
  // the close check, and nobody is asked to look again. The worker rests here only if the stack has
  // nothing to send at once, as when the peer's window is still zero.
  lemma FinCanBePendingWhileParked() returns (es: seq<Event>)
    ensures Run(es).Some?
    ensures var s := Run(es).value;
      s.phase == Parked && s.handler == Waiting && !s.permit && 0 in s.tracked && 0 in s.conns
      && !s.conns[0].dirty && FinPending(s.conns[0].ctl, s.conns[0].sock)
  {
    var c;
    es, c := WriteAndDropEarly();
    SynVisited(c);
    es, c := HandshakeFirst(es, Opening(c, true), c);
    EstablishedVisited(c);
    es := EstablishFirst(es, c);
  }

  lemma IdleVisited(c: Conn)
    requires c == NewConn(1, 9)
    ensures var d := AfterVisit(Opened(c), None, None);
      && d.ctl == NEW_CONTROL && d.sock == Sock(SynReceived, [], 9)
      && d.returned == [] == d.arrived && d.ending == Open
  {
  }

  lemma IdleEstablished(c: Conn)
    requires c.ctl == NEW_CONTROL && c.sock == Sock(SynReceived, [], 9)
    ensures var d := AfterVisit(AfterPoll(c, c.sock.(state := Established), []), None, None);
      && d.ctl == NEW_CONTROL && d.sock == Sock(Established, [], 9)
      && d.returned == c.returned && d.arrived == c.arrived && d.ending == c.ending
  {
  }

  // An open connection on which nothing has been written or read.
  lemma EstablishedIdle() returns (es: seq<Event>, c: Conn)
    ensures c.ctl == NEW_CONTROL && c.sock == Sock(Established, [], 9)
    ensures c.returned == [] == c.arrived && c.ending == Open
    ensures Run(es) == Some(One(c, [], false, Empty, {0}, Parked))
  {
    es := ParkInitially();
    es := OpenEarly(es, Run(es).value);
    c := NewConn(1, 9);
    IdleVisited(c);
    es, c := HandshakeFirst(es, Opening(c, false), c);
    IdleEstablished(c);
    es := EstablishFirst(es, c);
    c := AfterVisit(AfterPoll(c, c.sock.(state := Established), []), None, None);
  }

  // Two more segments reach the queue before the worker polls.
  lemma TwoSegments(es: seq<Event>, c: Conn) returns (longer: seq<Event>)
    requires Run(es) == Some(One(c, [], false, Empty, {0}, Parked))
    ensures Run(longer) == Some(One(c, [Segment, Segment], true, Gave, {0}, Polling))
  {
    longer := ForwardSegment(es, Run(es).value);
    longer := ForwardSegment(longer, Run(longer).value);
    assert [] + [Segment] + [Segment] == [Segment, Segment];
    var s := One(c, [Segment, Segment], true, Empty, {0}, Draining);
    longer := Follow(longer, Run(longer).value, WakeByPermit, s);
    longer := Follow(longer, s, BeginPoll, s.(phase := Polling, device := Gave));
  }

  lemma ResetBehindData(es: seq<Event>, c: Conn) returns (longer: seq<Event>, d: Conn)
    requires Run(es) == Some(One(c, [Segment, Segment], true, Gave, {0}, Polling))
    requires c.ctl == NEW_CONTROL && c.sock == Sock(Established, [], 9)
    requires c.returned == [] == c.arrived && c.ending == Open
    ensures d.ctl == NEW_CONTROL && d.sock == Sock(ClosedState, [7], 9)
    ensures d.returned == [] && d.arrived == [7] && d.ending == Open
    ensures Run(longer) == Some(One(d, [], true, Gave, {0}, Polling))
  {
    assert [Segment, Segment] == [Segment] + [Segment];
    longer := TakesSegment(es, c, [Segment], true, Sock(Established, [7], 9), [7]);
    d := AfterPoll(c, Sock(Established, [7], 9), [7]);
    assert [Segment] == [Segment] + [];
    longer := TakesSegment(longer, d, [], true, Sock(ClosedState, [7], 9), []);
    d := AfterPoll(d, Sock(ClosedState, [7], 9), []);
  }

  // Data and, right behind it, a reset, both consumed in one poll: the socket is reaped unread, the
  // reader sees EOF and one byte is lost.
  lemma ReapedEofCanHideBytes() returns (es: seq<Event>)
    ensures Run(es).Some? && 0 in Run(es).value.conns
    ensures var c := Run(es).value.conns[0];
      PollRead(c.ctl, 5, 100).reply == Bytes([]) && c.ending == Reaped(1) && c.returned == [] && c.arrived == [7]
  {
    var c;
    es, c := EstablishedIdle();
    es := TwoSegments(es, c);
    es, c := ResetBehindData(es, c);
    var s := One(c, [], true, Gave, {0}, Polling);
    es := Follow(es, s, FindNoFrame, s.(avail := false, device := Empty));
    es := VisitFirst(es, c, s.(avail := false, device := Empty));
  }

  // A stream dropped before its SYN, which stands behind two other frames, reaches the stack.
  lemma DropBehindFrames() returns (es: seq<Event>, c: Conn)
    ensures c.sock == Sock(Listen, [], 9) && c.ctl == NEW_CONTROL.(sendState := Close, recvState := Close)
    ensures Run(es) == Some(One(c, [Segment, Segment, OpeningSyn(0)], true, Gave, {}, Polling))
  {
    es := ParkInitially();
    var s := INITIAL.(phase := Parked);
    es := ForwardSegment(es, s);
    s := s.(ingress := [] + [Segment], avail := true, permit := true);
    es := ForwardSegment(es, s);
    s := s.(ingress := [] + [Segment] + [Segment]);
    es := OpenEarly(es, s);
    c := NewConn(1, 9);
    s := s.(conns := map[0 := c], handler := StreamSent(0));
    es := CallFirst(es, s, c, Drop);
    c := AfterCall(c, Drop);
    es := ForwardSyn(es, s.(conns := map[0 := c]));
    assert [] + [Segment] + [Segment] + [OpeningSyn(0)] == [Segment, Segment, OpeningSyn(0)];
    es := WakeAndAdd(es, Run(es).value, c);
  }

  lemma DroppedVisited(c: Conn)
    requires c.sock == Sock(Listen, [], 9) && c.ctl == NEW_CONTROL.(sendState := Close, recvState := Close)
    ensures FaultsFit(c.ctl, c.sock, None, None) && AfterVisit(c, None, None).sock.state == ClosedState
  {
  }

  lemma LoseSocket(es: seq<Event>, c: Conn) returns (longer: seq<Event>)
    requires Run(es) == Some(One(c, [Segment, OpeningSyn(0)], false, Full(2), {}, Parked))
    requires c.sock.state == ClosedState
    ensures Run(longer).Some?
    ensures var s := Run(longer).value;
      s.phase == Polling && s.ingress == [OpeningSyn(0)] && 0 in s.added && 0 !in s.tracked
  {
    var s := One(c, [Segment, OpeningSyn(0)], false, Full(2), {}, Draining);
    longer := Follow(es, Run(es).value, WakeByTimer, s);
    longer := Follow(longer, s, BeginPoll, s.(phase := Polling, device := Gave));
    longer := LosesSegment(longer, c, s.(phase := Polling, device := Gave), [OpeningSyn(0)]);
    longer := VisitFirst(longer, c, One(c, [OpeningSyn(0)], false, Full(1), {}, Polling));
    s := One(AfterVisit(c, None, None), [OpeningSyn(0)], false, Full(1), {}, Scanning({}, {0}));
    longer := Rest(longer, s, {0});
    s := s.(tracked := {0} - {0}, phase := Draining);
    longer := Follow(longer, Run(longer).value, WakeByTimer, s);
    longer := Follow(longer, s, BeginPoll, s.(phase := Polling, device := Gave));
  }

  lemma LosesSegment(es: seq<Event>, c: Conn, s: System, rest: seq<Frame>) returns (longer: seq<Event>)
    requires Run(es) == Some(s) && s == One(c, [Segment] + rest, s.avail, Gave, {}, Polling)
    ensures Run(longer) == Some(One(c, rest, false, Full(|rest|), {}, Polling))
  {
    assert ([Segment] + rest)[1..] == rest;
    longer := Follow(es, s, LoseFrame, One(c, rest, false, Full(|rest|), {}, Polling));
  }

  // Its listening socket is closed, and reaped before the stack gets to the SYN, if the device loses
  // the frames in front to a full egress queue.
  lemma SynCanLoseItsSocket() returns (es: seq<Event>)
    ensures Run(es).Some?
    ensures var s := Run(es).value;
      s.phase == Polling && s.ingress == [OpeningSyn(0)] && 0 in s.added && 0 !in s.tracked
  {
    var c;
    es, c := DropBehindFrames();
    assert [Segment, Segment, OpeningSyn(0)] == [Segment] + [Segment, OpeningSyn(0)];
    es := LosesSegment(es, c, Run(es).value, [Segment, OpeningSyn(0)]);
    DroppedVisited(c);
    es := VisitAndRest(es, c, Run(es).value);
    es := LoseSocket(es, AfterVisit(c, None, None));
  }

  // Two frames reach an empty bridge, and the device loses the first to a full egress queue: the worker
  // parks, and the second stays behind.
  lemma LostFrameStrandsTheNext() returns (es: seq<Event>)
    ensures Run(es).Some?
    ensures var s := Run(es).value;
      && s.phase == Parked && s.handler == Waiting && !s.permit && !s.avail
      && s.ingress == [Segment] && s.device == Full(1)
  {
    es := ParkInitially();
    var s := INITIAL.(phase := Parked);
    es := ForwardSegment(es, s);
    s := s.(ingress := [] + [Segment], avail := true, permit := true);
    es := ForwardSegment(es, s);
    s := s.(ingress := [] + [Segment] + [Segment]);
    es := Follow(es, s, WakeByPermit, s.(permit := false, phase := Draining));
    s := s.(permit := false, phase := Draining);
    es := Follow(es, s, BeginPoll, s.(phase := Polling, device := Gave));
    es := LoseAndRest(es, s.(phase := Polling, device := Gave));
  }

  lemma LoseAndRest(es: seq<Event>, s: System) returns (longer: seq<Event>)
    requires Run(es) == Some(s) && s.phase == Polling && s.tracked == {} && |s.ingress| == 2 && s.ingress[0] == Segment
    ensures Run(longer) == Some(s.(ingress := s.ingress[1..], avail := false, device := Full(1), phase := Parked))
  {
    var d := s.(ingress := s.ingress[1..], avail := false, device := Full(1));
    longer := Follow(es, s, LoseFrame, d);
    longer := Follow(longer, d, EndPoll, d.(phase := Scanning({}, {})));
    assert d.tracked - {} == d.tracked;
    longer := Rest(longer, d.(phase := Scanning({}, {})), {});
  }
}
