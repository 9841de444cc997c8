// Progress of the sending side: a stream that has shut down gets its data and its FIN out.
module TcpProgress {
  import opened Bytes
  import opened SmolSocket
  import opened TcpControl
  import opened TcpConn
  import opened TcpBridge

  // Shut down by the stream, over a socket that still sends.
  predicate Finishing(c: Conn)
  {
    c.ctl.sendState == Close && c.sock.state in {Established, CloseWait}
  }

  ghost predicate OnTheWay(s: System, h: Handle, accepted: seq<byte>)
  {
    && Inv(s) && h in s.tracked && h in s.conns && s.conns[h].accepted == accepted
    && (s.conns[h].finSent || Finishing(s.conns[h]))
  }

  // ---- One connection ----

  // A fault-free visit hands over what fits, or sends the FIN if nothing is left.
  lemma VisitOfFinishing(c: Conn)
    requires ConnInv(c) && Finishing(c) && !c.finSent && FaultsFit(c.ctl, c.sock, None, None)
    ensures var d := AfterVisit(c, None, None); var n := Min(|c.ctl.sendBuffer|, c.sock.txRoom);
      && d.accepted == c.accepted
      && (if c.ctl.sendBuffer == [] then d.finSent
          else
            && !d.finSent && Finishing(d)
            && d.ctl.sendBuffer == c.ctl.sendBuffer[n..] && d.sock.txRoom == c.sock.txRoom - n)
  {
    var n, m := ScanFacts(c.ctl, c.sock, None, None);
    ReceiveSide(c.ctl, c.sock, None);
    var (c3, s3, _) := BeforeSend(c.ctl, c.sock, None);
    SendSide(c3, s3, None);
  }

  // The peer acknowledges enough to make room for the whole buffer.
  function Acknowledged(c: Conn): Sock
  {
    c.sock.(txRoom := |c.ctl.sendBuffer|)
  }

  // ---- How far a connection is from its FIN ----

  // 4: room is needed and no segment is on its way; 3: one is; 2: everything fits; 1: only the FIN is
  // left; 0: it is sent.
  function Stage(s: System, h: Handle): nat
    requires h in s.conns
  {
    var c := s.conns[h];
    if c.finSent then 0
    else if c.ctl.sendBuffer == [] then 1
    else if |c.ctl.sendBuffer| <= c.sock.txRoom then 2
    else if Segment in s.ingress || s.handler == Forwarding(Segment) then 3
    else 4
  }

  // How far the worker is from the place where the stage can fall: at rest for stage 4, in a poll for
  // stage 3, and before the visit of the connection for the others.
  function Place(s: System, h: Handle, stage: nat): nat
  {
    if stage == 4 then
      match s.phase
      case Draining => 5 case Polling => 4 case Scanning(_, _) => 3
      case Reaping(_) => 2 case Deciding => 1 case Parked => 0
    else
      match s.phase
      case Scanning(todo, _) => if stage < 3 && h in todo then 0 else 6
      case Reaping(_) => 5 case Deciding => 4 case Parked => 3 case Draining => 2 case Polling => 1
  }

  // How much is left to do in that place.
  function Size(s: System): nat
  {
    match s.phase
    case Draining => |s.queued|
    case Polling => 2 * |s.ingress| + if s.device == Gave then 1 else 0
    case Scanning(todo, _) => |todo|
    case Parked =>
      (match s.handler
       case StreamSent(_) => 4 case Forwarding(_) => 3 case Queued => 2 case AvailSet => 1 case Waiting => 0)
    case _ => 0
  }

  // `d` is closer to the FIN than `s`.
  predicate Closer(s: System, d: System, h: Handle)
    requires h in s.conns && h in d.conns
  {
    var i, j := Stage(s, h), Stage(d, h);
    var p, q := Place(s, h, i), Place(d, h, j);
    j < i || (j == i && (q < p || (q == p && Size(d) < Size(s))))
  }

  // The step is possible, made by handler, worker or stack, and brings the FIN closer.
  ghost predicate Helps(s: System, h: Handle, accepted: seq<byte>, e: Event)
    requires h in s.conns
  {
    && Enabled(s, e) && !e.StreamCall? && !e.OpenStream? && (e.TakeSegment? ==> Stage(s, h) == 4)
    && h in Next(s, e).conns && OnTheWay(Next(s, e), h, accepted) && Closer(s, Next(s, e), h)
  }

  // A connection on its way to the FIN is not about to leave the socket set.
  lemma StaysTracked(s: System, h: Handle, accepted: seq<byte>)
    requires OnTheWay(s, h, accepted) && !s.conns[h].finSent
    ensures !Doomed(s, h)
  {
    assert ConnInv(s.conns[h]);
  }

  // A step that leaves the connection alone keeps it on its way.
  lemma UntouchedOnTheWay(s: System, h: Handle, accepted: seq<byte>, e: Event)
    requires OnTheWay(s, h, accepted) && !s.conns[h].finSent && Enabled(s, e)
    requires h in Next(s, e).conns && Next(s, e).conns[h] == s.conns[h] && h in Next(s, e).tracked
    ensures OnTheWay(Next(s, e), h, accepted)
  {
    StepKeeps(s, e);
  }

  lemma StepOfAnnouncing(s: System, h: Handle, accepted: seq<byte>) returns (e: Event)
    requires OnTheWay(s, h, accepted) && !s.conns[h].finSent && s.phase == Parked
    requires s.handler.StreamSent? || s.handler.Forwarding?
    ensures Helps(s, h, accepted, e)
  {
    e := if s.handler.StreamSent? then QueueSocket else QueueFrame;
    UntouchedOnTheWay(s, h, accepted, e);
  }

  lemma StepOfNotifying(s: System, h: Handle, accepted: seq<byte>) returns (e: Event)
    requires OnTheWay(s, h, accepted) && !s.conns[h].finSent && s.phase == Parked
    requires s.handler == Queued || s.handler == AvailSet
    ensures Helps(s, h, accepted, e)
  {
    e := if s.handler == Queued then SetAvail else NotifyWorker;
    UntouchedOnTheWay(s, h, accepted, e);
  }

  // At rest: a segment comes if one is needed, else the timer fires.
  lemma StepAtRest(s: System, h: Handle, accepted: seq<byte>) returns (e: Event)
    requires OnTheWay(s, h, accepted) && !s.conns[h].finSent && s.phase == Parked && s.handler == Waiting
    ensures Helps(s, h, accepted, e)
  {
    e := if Stage(s, h) == 4 then TakeSegment else WakeByTimer;
    UntouchedOnTheWay(s, h, accepted, e);
  }

  lemma StepOfDraining(s: System, h: Handle, accepted: seq<byte>) returns (e: Event)
    requires OnTheWay(s, h, accepted) && !s.conns[h].finSent && s.phase == Draining
    ensures Helps(s, h, accepted, e)
  {
    e := if s.queued != [] then AddSocket else BeginPoll;
    UntouchedOnTheWay(s, h, accepted, e);
  }

  lemma StepOfAck(s: System, h: Handle, accepted: seq<byte>) returns (e: Event)
    requires OnTheWay(s, h, accepted) && !s.conns[h].finSent && s.phase == Polling && Stage(s, h) == 3
    requires s.ingress != [] && s.ingress[0] == Segment
    ensures Helps(s, h, accepted, e)
  {
    e := GiveSegment(h, Acknowledged(s.conns[h]), []);
    assert s.conns[h].sock.unread + [] == s.conns[h].sock.unread;
    StepKeeps(s, e);
  }

  lemma StepPastFrame(s: System, h: Handle, accepted: seq<byte>) returns (e: Event)
    requires OnTheWay(s, h, accepted) && !s.conns[h].finSent && s.phase == Polling && s.ingress != []
    requires Stage(s, h) == 3 ==> s.ingress[0] != Segment
    ensures Helps(s, h, accepted, e)
  {
    e := IgnoreFrame;
    assert s.ingress == [s.ingress[0]] + s.ingress[1..];
    UntouchedOnTheWay(s, h, accepted, e);
  }

  lemma StepOfPollEnd(s: System, h: Handle, accepted: seq<byte>) returns (e: Event)
    requires OnTheWay(s, h, accepted) && !s.conns[h].finSent && s.phase == Polling && s.ingress == []
    ensures Helps(s, h, accepted, e)
  {
    e := if s.device == Gave then FindNoFrame else EndPoll;
    UntouchedOnTheWay(s, h, accepted, e);
  }

  lemma OwnVisitOnTheWay(s: System, h: Handle, accepted: seq<byte>)
    requires OnTheWay(s, h, accepted) && !s.conns[h].finSent && Enabled(s, VisitOne(h, None, None))
    ensures h in Next(s, VisitOne(h, None, None)).conns && OnTheWay(Next(s, VisitOne(h, None, None)), h, accepted)
  {
    assert ConnInv(s.conns[h]);
    VisitOfFinishing(s.conns[h]);
    StepKeeps(s, VisitOne(h, None, None));
  }

  // After its visit the connection is a stage further, or one connection less is to be visited.
  lemma VisitedIsCloser(s: System, d: System, h: Handle, k: Handle)
    requires s.phase.Scanning? && k in s.phase.todo && d.phase.Scanning? && d.phase.todo == s.phase.todo - {k}
    requires h in s.conns && h in d.conns && d.ingress == s.ingress && d.handler == s.handler
    requires Stage(d, h) < Stage(s, h)
             || (Stage(d, h) == Stage(s, h) && (Stage(s, h) >= 3 || (h !in s.phase.todo && h !in d.phase.todo)))
    ensures Closer(s, d, h)
  {
    assert |d.phase.todo| == |s.phase.todo| - 1;
  }

  lemma OwnVisitStage(s: System, d: System, h: Handle)
    requires h in s.conns && h in d.conns && d.ingress == s.ingress && d.handler == s.handler
    requires ConnInv(s.conns[h]) && Finishing(s.conns[h]) && !s.conns[h].finSent
    requires FaultsFit(s.conns[h].ctl, s.conns[h].sock, None, None) && d.conns[h] == AfterVisit(s.conns[h], None, None)
    ensures Stage(d, h) < Stage(s, h) || (Stage(d, h) == Stage(s, h) >= 3)
  {
    VisitOfFinishing(s.conns[h]);
  }

  lemma StepOfOwnVisit(s: System, h: Handle, accepted: seq<byte>) returns (e: Event)
    requires OnTheWay(s, h, accepted) && !s.conns[h].finSent && s.phase.Scanning? && h in s.phase.todo
    ensures Helps(s, h, accepted, e)
  {
    e := VisitOne(h, None, None);
    assert ConnInv(s.conns[h]);
    OwnVisitOnTheWay(s, h, accepted);
    OwnVisitStage(s, Next(s, e), h);
    VisitedIsCloser(s, Next(s, e), h, h);
  }

  lemma OtherVisitOnTheWay(s: System, h: Handle, k: Handle, accepted: seq<byte>)
    requires OnTheWay(s, h, accepted) && !s.conns[h].finSent && s.phase.Scanning? && k in s.phase.todo && h != k
    ensures Enabled(s, VisitOne(k, None, None))
    ensures h in Next(s, VisitOne(k, None, None)).conns && OnTheWay(Next(s, VisitOne(k, None, None)), h, accepted)
  {
    UntouchedOnTheWay(s, h, accepted, VisitOne(k, None, None));
  }

  lemma OtherVisitIsCloser(s: System, h: Handle, k: Handle)
    requires Enabled(s, VisitOne(k, None, None)) && h in s.conns && h != k && h !in s.phase.todo
    ensures h in Next(s, VisitOne(k, None, None)).conns && Closer(s, Next(s, VisitOne(k, None, None)), h)
  {
    VisitedIsCloser(s, Next(s, VisitOne(k, None, None)), h, k);
  }

  lemma StepOfOtherVisit(s: System, h: Handle, accepted: seq<byte>) returns (e: Event)
    requires OnTheWay(s, h, accepted) && !s.conns[h].finSent && s.phase.Scanning?
    requires h !in s.phase.todo && s.phase.todo != {}
    ensures Helps(s, h, accepted, e)
  {
    var k :| k in s.phase.todo;
    OtherVisitOnTheWay(s, h, k, accepted);
    OtherVisitIsCloser(s, h, k);
    e := VisitOne(k, None, None);
  }

  lemma StepAfterScan(s: System, h: Handle, accepted: seq<byte>) returns (e: Event)
    requires OnTheWay(s, h, accepted) && !s.conns[h].finSent
    requires s.phase == Deciding || s.phase.Reaping? || (s.phase.Scanning? && s.phase.todo == {})
    ensures Helps(s, h, accepted, e)
  {
    StaysTracked(s, h, accepted);
    e := if s.phase.Scanning? then FinishScan
         else if s.phase.Reaping? then Reap
         else if Stage(s, h) == 4 then Decide(1)
         else Decide(0);
    UntouchedOnTheWay(s, h, accepted, e);
  }

  lemma SomeStepHelps(s: System, h: Handle, accepted: seq<byte>) returns (e: Event)
    requires OnTheWay(s, h, accepted) && !s.conns[h].finSent
    ensures Helps(s, h, accepted, e)
  {
    match s.phase
    case Parked =>
      match s.handler {
        case Waiting => e := StepAtRest(s, h, accepted);
        case StreamSent(_) => e := StepOfAnnouncing(s, h, accepted);
        case Forwarding(_) => e := StepOfAnnouncing(s, h, accepted);
        case _ => e := StepOfNotifying(s, h, accepted);
      }
    case Draining => e := StepOfDraining(s, h, accepted);
    case Polling =>
      if s.ingress == [] {
        e := StepOfPollEnd(s, h, accepted);
      } else if Stage(s, h) == 3 && s.ingress[0] == Segment {
        e := StepOfAck(s, h, accepted);
      } else {
        e := StepPastFrame(s, h, accepted);
      }
    case Scanning(todo, _) =>
      if h in todo {
        e := StepOfOwnVisit(s, h, accepted);
      } else if todo != {} {
        e := StepOfOtherVisit(s, h, accepted);
      } else {
        e := StepAfterScan(s, h, accepted);
      }
    case _ => e := StepAfterScan(s, h, accepted);
  }

  // ---- Counting the steps ----

  // Sockets the worker has or is about to get.
  function Sockets(s: System): nat
  {
    |s.tracked| + |s.queued| + if s.handler.StreamSent? then 1 else 0
  }

  // Frames in the queue, on their way to it, or still to come because room is needed.
  function Frames(s: System, h: Handle): nat
    requires h in s.conns
  {
    |s.ingress| + (if s.handler.StreamSent? || s.handler.Forwarding? then 1 else 0) + if Stage(s, h) == 4 then 1 else 0
  }

  // More than is ever left to do in one place.
  function Span(s: System, h: Handle): nat
    requires h in s.conns
  {
    Sockets(s) + 2 * Frames(s, h) + 6
  }

  // Stage and place in one number.
  function Rank(s: System, h: Handle): (r: nat)
    requires h in s.conns
    ensures r <= 34
  {
    7 * Stage(s, h) + Place(s, h, Stage(s, h))
  }

  function Distance(s: System, h: Handle): nat
    requires h in s.conns
  {
    Rank(s, h) * Span(s, h) + Size(s)
  }

  lemma CloserRanks(s: System, d: System, h: Handle)
    requires h in s.conns && h in d.conns && Closer(s, d, h)
    ensures Rank(d, h) < Rank(s, h) || (Rank(d, h) == Rank(s, h) && Size(d) < Size(s))
    ensures Stage(d, h) <= Stage(s, h)
  {
  }

  lemma SubsetSize(a: set<Handle>, b: set<Handle>)
    requires a <= b
    ensures |a| <= |b|
  {
    assert b == a + (b - a) && a !! b - a;
  }

  lemma SizeBelowSpan(s: System, h: Handle)
    requires Shape(s) && h in s.conns
    ensures Size(s) < Span(s, h)
  {
    if s.phase.Scanning? {
      SubsetSize(s.phase.todo, s.tracked);
    }
  }

  lemma SocketsDoNotGrow(s: System, e: Event)
    requires Shape(s) && Enabled(s, e) && !e.OpenStream?
    ensures Sockets(Next(s, e)) <= Sockets(s)
  {
    match e
    case AddSocket => assert |s.tracked + {s.queued[0]}| <= |s.tracked| + 1;
    case Reap => SubsetSize(s.tracked - s.phase.gone, s.tracked);
    case _ =>
  }

  lemma FramesDoNotGrow(s: System, d: System, h: Handle, e: Event)
    requires Shape(s) && Enabled(s, e) && d == Next(s, e) && h in s.conns && h in d.conns && Stage(d, h) <= Stage(s, h)
    requires !e.OpenStream? && (e.TakeSegment? ==> Stage(s, h) == 4)
    ensures Frames(d, h) <= Frames(s, h)
  {
  }

  lemma ProductGrows(i: nat, a: nat, b: nat)
    requires a <= b
    ensures i * a <= i * b
  {
    assert i * b == i * a + i * (b - a);
  }

  lemma ProductSteps(j: nat, i: nat, span: nat)
    requires j < i
    ensures j * span + span <= i * span
  {
    ProductGrows(span, j + 1, i);
    assert (j + 1) * span == j * span + span;
  }

  lemma Shrinks(i: nat, j: nat, span: nat, newSpan: nat, size: nat, newSize: nat)
    requires newSpan <= span && newSize < newSpan
    requires j < i || (j == i && newSize < size)
    ensures j * newSpan + newSize < i * span + size
  {
    ProductGrows(j, newSpan, span);
    if j < i {
      ProductSteps(j, i, span);
    }
  }

  lemma SpanDoesNotGrow(s: System, h: Handle, accepted: seq<byte>, e: Event)
    requires OnTheWay(s, h, accepted) && Helps(s, h, accepted, e)
    ensures h in Next(s, e).conns && Span(Next(s, e), h) <= Span(s, h) && Size(Next(s, e)) < Span(Next(s, e), h)
  {
    var d := Next(s, e);
    CloserRanks(s, d, h);
    SocketsDoNotGrow(s, e);
    FramesDoNotGrow(s, d, h, e);
    SizeBelowSpan(d, h);
  }

  lemma CloserIsNearer(s: System, d: System, h: Handle)
    requires h in s.conns && h in d.conns && Closer(s, d, h) && Span(d, h) <= Span(s, h) && Size(d) < Span(d, h)
    ensures Distance(d, h) < Distance(s, h)
  {
    CloserRanks(s, d, h);
    Shrinks(Rank(s, h), Rank(d, h), Span(s, h), Span(d, h), Size(s), Size(d));
  }

  lemma HelpShortens(s: System, h: Handle, accepted: seq<byte>, e: Event)
    requires OnTheWay(s, h, accepted) && Helps(s, h, accepted, e)
    ensures Distance(Next(s, e), h) < Distance(s, h)
  {
    SpanDoesNotGrow(s, h, accepted, e);
    CloserIsNearer(s, Next(s, e), h);
  }

  lemma DistanceIsLinear(s: System, h: Handle)
    requires Shape(s) && h in s.conns
    ensures Distance(s, h) <= 35 * Span(s, h)
  {
    SizeBelowSpan(s, h);
    ProductGrows(Span(s, h), Rank(s, h), 34);
  }

  // ---- From every state ----

  lemma OneStepOn(es: seq<Event>, s: System, h: Handle, accepted: seq<byte>) returns (longer: seq<Event>, d: System)
    requires Run(es) == Some(s) && OnTheWay(s, h, accepted) && !s.conns[h].finSent
    ensures |longer| == |es| + 1 && es <= longer && !longer[|es|].StreamCall? && Run(longer) == Some(d)
    ensures OnTheWay(d, h, accepted) && Distance(d, h) < Distance(s, h)
  {
    var e := SomeStepHelps(s, h, accepted);
    HelpShortens(s, h, accepted, e);
    RunSnoc(es, e);
    longer, d := es + [e], Next(s, e);
  }

  // The steps taken since `es` are not the streams'.
  predicate NoCallsSince(es: seq<Event>, longer: seq<Event>)
  {
    es <= longer && forall i :: |es| <= i < |longer| ==> !longer[i].StreamCall?
  }

  lemma NoCallsBefore(es: seq<Event>, next: seq<Event>, longer: seq<Event>)
    requires es <= next && |next| == |es| + 1 && !next[|es|].StreamCall? && NoCallsSince(next, longer)
    ensures NoCallsSince(es, longer)
  {
    assert longer[|es|] == next[|es|];
  }

  lemma {:induction false} FinGoesOutFrom(es: seq<Event>, s: System, h: Handle, accepted: seq<byte>)
    returns (longer: seq<Event>, end: System)
    requires Run(es) == Some(s) && OnTheWay(s, h, accepted)
    ensures NoCallsSince(es, longer) && Run(longer) == Some(end)
    ensures OnTheWay(end, h, accepted) && end.conns[h].finSent
    ensures |longer| - |es| <= Distance(s, h)
    decreases Distance(s, h)
  {
    if s.conns[h].finSent {
      longer, end := es, s;
    } else {
      var next, d := OneStepOn(es, s, h, accepted);
      longer, end := FinGoesOutFrom(next, d, h, accepted);
      NoCallsBefore(es, next, longer);
    }
  }

  // No shutdown can be left hanging for good: every run that has reached a state in which a stream has
  // shut down over a socket that still sends can be continued by steps of handler, worker and stack,
  // without any stream call, so that everything accepted is handed over and the FIN is sent. Their
  // number is linear in the sockets and frames there are.
  lemma FinGoesOut(es: seq<Event>, h: Handle) returns (longer: seq<Event>)
    requires Run(es).Some? && h in Run(es).value.tracked && h in Run(es).value.conns
    requires Finishing(Run(es).value.conns[h])
    ensures NoCallsSince(es, longer) && Run(longer).Some? && h in Run(longer).value.conns
    ensures var d := Run(longer).value.conns[h];
      d.finSent && d.handed == d.accepted == Run(es).value.conns[h].accepted
    ensures |longer| - |es| <= 35 * Span(Run(es).value, h)
  {
    RunInv(es);
    DistanceIsLinear(Run(es).value, h);
    var end;
    longer, end := FinGoesOutFrom(es, Run(es).value, h, Run(es).value.conns[h].accepted);
    assert ConnInv(end.conns[h]);
  }
}
