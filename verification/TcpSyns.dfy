// Opening SYNs against listening sockets: the handler makes a socket for every SYN, so retransmitted
// SYNs and parallel connections leave several sockets listening for one destination.
module TcpSyns {
  import opened SmolSocket
  import opened TcpConn
  import opened TcpBridge

  // No SYN is taken by two sockets.
  ghost predicate TookDisjoint(s: System)
  {
    forall h, k, g | h in s.conns && k in s.conns && h != k && g in s.conns[h].took :: g !in s.conns[k].took
  }

  predicate TouchesConn(e: Event)
  {
    e.StreamCall? || e.OpenStream? || e.GiveSyn? || e.GiveSegment? || e.TimerFires? || e.VisitOne?
  }

  lemma OthersTouchNoConn(s: System, e: Event)
    requires Enabled(s, e) && !TouchesConn(e)
    ensures Next(s, e).conns == s.conns
  {
  }

  // What a step does to the SYNs a socket has taken.
  lemma TookAfter(s: System, e: Event, h: Handle)
    requires Enabled(s, e) && h in Next(s, e).conns
    ensures var took := Next(s, e).conns[h].took;
      if h !in s.conns then took == {}
      else if e.GiveSyn? && e.h == h then took == s.conns[h].took + {s.ingress[0].handle}
      else took == s.conns[h].took
  {
    if !TouchesConn(e) {
      OthersTouchNoConn(s, e);
    }
  }

  lemma StepKeepsDisjoint(s: System, e: Event)
    requires SynsCovered(s) && TookSound(s) && TookDisjoint(s) && Enabled(s, e)
    ensures TookDisjoint(Next(s, e))
  {
    var d := Next(s, e);
    forall h, k, g | h in d.conns && k in d.conns && h != k && g in d.conns[h].took
      ensures g !in d.conns[k].took
    {
      TookAfter(s, e, h);
      TookAfter(s, e, k);
      if e.GiveSyn? {
        assert SynCovered(s, s.ingress[0]);
      }
    }
  }

  lemma {:induction false} RunKeepsDisjoint(es: seq<Event>)
    requires Run(es).Some?
    ensures TookDisjoint(Run(es).value)
  {
    if es != [] {
      var before := es[..|es| - 1];
      RunKeepsDisjoint(before);
      RunInv(before);
      StepKeepsDisjoint(Run(before).value, es[|es| - 1]);
    }
  }

  // ---- Counting, destination by destination ----

  function AddedFor(s: System, dest: nat): set<Handle>
  {
    set h | h in s.added && h in s.conns && s.conns[h].dest == dest
  }

  // Sockets that have not taken a SYN.
  function Unused(s: System, dest: nat): set<Handle>
  {
    set h | h in AddedFor(s, dest) && s.conns[h].took == {}
  }

  // Those of them that can take one: in the socket set, and listening.
  function Ready(s: System, dest: nat): set<Handle>
  {
    set h | h in Unused(s, dest) && h in s.tracked && s.conns[h].sock.state == Listen
  }

  // Those that the worker closed for a stream that ended before it was opened.
  function Withdrawn(s: System, dest: nat): set<Handle>
  {
    set h | h in Unused(s, dest) && s.conns[h].finSent
  }

  function QueuedFor(s: System, dest: nat): set<Handle>
  {
    set h | h in s.conns.Keys && OpeningSyn(h) in s.ingress && s.conns[h].dest == dest
  }

  function ConsumedFor(s: System, dest: nat): set<Handle>
  {
    set g | g in s.consumed && g in s.conns && s.conns[g].dest == dest
  }

  lemma SubsetSize(a: set<Handle>, b: set<Handle>)
    requires a <= b
    ensures |a| <= |b|
  {
    assert b == a + (b - a) && a !! b - a;
  }

  // Disjoint non-empty parts of a set: there are no more of them than it has elements.
  lemma {:induction false} Pigeonhole(parts: map<Handle, set<Handle>>, owners: set<Handle>, whole: set<Handle>)
    requires owners <= parts.Keys
    requires forall h <- owners :: parts[h] != {} && parts[h] <= whole
    requires forall h, k, g | h in owners && k in owners && h != k && g in parts[h] :: g !in parts[k]
    ensures |owners| <= |whole|
    decreases |owners|
  {
    if owners != {} {
      var h :| h in owners;
      var g :| g in parts[h];
      Pigeonhole(parts, owners - {h}, whole - {g});
    }
  }

  lemma TookOwnDestination(s: System, dest: nat, h: Handle)
    requires TookSound(s) && h in AddedFor(s, dest)
    ensures s.conns[h].took <= ConsumedFor(s, dest)
  {
  }

  // The sockets that have been used up are no more than the SYNs that have been consumed.
  lemma UsedBoundedByConsumed(s: System, dest: nat)
    requires TookSound(s) && TookDisjoint(s)
    ensures |AddedFor(s, dest) - Unused(s, dest)| <= |ConsumedFor(s, dest)|
  {
    var used := AddedFor(s, dest) - Unused(s, dest);
    var parts := map h | h in used :: s.conns[h].took;
    forall h | h in used
      ensures parts[h] != {} && parts[h] <= ConsumedFor(s, dest)
    {
      TookOwnDestination(s, dest, h);
    }
    Pigeonhole(parts, used, ConsumedFor(s, dest));
  }

  // While the stack polls, every destination has at least as many unused sockets as opening SYNs in
  // the queue, and the unused ones are ready except for those that were withdrawn.
  lemma SocketsCoverSyns(es: seq<Event>, dest: nat)
    requires Run(es).Some? && Run(es).value.phase == Polling
    ensures var s := Run(es).value;
      && |QueuedFor(s, dest)| <= |Unused(s, dest)|
      && Ready(s, dest) == Unused(s, dest) - Withdrawn(s, dest)
      && |Ready(s, dest)| == |Unused(s, dest)| - |Withdrawn(s, dest)|
  {
    var s := Run(es).value;
    RunInv(es);
    RunKeepsDisjoint(es);
    UsedBoundedByConsumed(s, dest);
    QueuedAreNotConsumed(s, dest);
    var all, unused, consumed := AddedFor(s, dest), Unused(s, dest), ConsumedFor(s, dest);
    SubsetSize(QueuedFor(s, dest), all - consumed);
    assert |all - consumed| == |all| - |consumed|;
    assert |all - unused| == |all| - |unused|;
    ReadyUnlessWithdrawn(s, dest);
    assert |unused - Withdrawn(s, dest)| == |unused| - |Withdrawn(s, dest)|;
  }

  lemma QueuedAreNotConsumed(s: System, dest: nat)
    requires Inv(s) && s.phase == Polling
    ensures QueuedFor(s, dest) <= AddedFor(s, dest) - ConsumedFor(s, dest)
    ensures ConsumedFor(s, dest) <= AddedFor(s, dest)
  {
    forall h | h in QueuedFor(s, dest)
      ensures h in AddedFor(s, dest) && h !in ConsumedFor(s, dest)
    {
      assert SynCovered(s, OpeningSyn(h));
    }
  }

  lemma ReadyUnlessWithdrawn(s: System, dest: nat)
    requires Inv(s) && s.phase == Polling
    ensures Ready(s, dest) == Unused(s, dest) - Withdrawn(s, dest)
  {
    forall h | h in Unused(s, dest)
      ensures h in s.tracked && s.conns[h].sock.state == Listen <==> !s.conns[h].finSent
    {
      assert ConnInv(s.conns[h]);
    }
  }

  lemma QueuedSynCounts(s: System, h: Handle)
    requires Inv(s) && s.phase == Polling && OpeningSyn(h) in s.ingress
    ensures h in s.conns && h in QueuedFor(s, s.conns[h].dest) && |QueuedFor(s, s.conns[h].dest)| >= 1
  {
    assert SynCovered(s, OpeningSyn(h));
    SubsetSize({h}, QueuedFor(s, s.conns[h].dest));
  }

  // A queued SYN finds a listening socket, whichever SYNs came before it, unless enough streams to
  // its destination were given up unopened.
  lemma SynFindsSomeSocket(es: seq<Event>, h: Handle)
    requires Run(es).Some? && Run(es).value.phase == Polling && OpeningSyn(h) in Run(es).value.ingress
    ensures var s := Run(es).value;
      && h in s.conns
      && var dest := s.conns[h].dest;
         && |Ready(s, dest)| >= |QueuedFor(s, dest)| - |Withdrawn(s, dest)|
         && (|Withdrawn(s, dest)| < |QueuedFor(s, dest)| ==> exists k :: k in Ready(s, dest))
         && (Withdrawn(s, dest) == {} ==> exists k :: k in Ready(s, dest))
  {
    var s := Run(es).value;
    RunInv(es);
    QueuedSynCounts(s, h);
    var dest := s.conns[h].dest;
    SocketsCoverSyns(es, dest);
    if |Ready(s, dest)| > 0 {
      var k :| k in Ready(s, dest);
    }
  }
}
