// The UDP server's session table, shared by one receive loop and the relay tasks.
module UdpServer {
  import opened Bytes
  import opened Aead
  import opened UdpCodec
  import opened ReplayWindow
  import opened Handshake

  type Addr = nat
  type RelayId = nat

  datatype Server = Server(cipher: Cipher, prims: Primitives, master: Key, xorKey: XorKey, preRx: Key)

  // ---- The proxy target of the first data packet ----

  datatype Target = V4(octets: seq<byte>, port: u16) | V6(octets: seq<byte>, port: u16)

  predicate ValidTarget(t: Target)
  {
    |t.octets| == if t.V4? then 4 else 16
  }

  function ParseTarget(payload: seq<byte>): Option<Target>
  {
    if |payload| < 4 || payload[0] != 1 then None
    else if payload[3] == 1 then
      if |payload| < 8 then None else Some(V4(payload[4..8], FromBE16(payload[1..3])))
    else if payload[3] == 4 then
      if |payload| < 20 then None else Some(V6(payload[4..20], FromBE16(payload[1..3])))
    else None
  }

  function BuildTarget(t: Target): seq<byte>
  {
    [1] + BE16(t.port) + [if t.V4? then 1 else 4] + t.octets
  }

  // A payload parses to `t` exactly when it starts with the encoding of `t`.
  lemma ParseTargetExactly(payload: seq<byte>, t: Target)
    requires ValidTarget(t)
    ensures ParseTarget(payload) == Some(t) <==> BuildTarget(t) <= payload
  {
    if BuildTarget(t) <= payload {
      assert payload[..|BuildTarget(t)|] == BuildTarget(t);
      assert payload[1..3] == BuildTarget(t)[1..3] == BE16(t.port) + [];
      BE16RoundTrip(t.port, []);
      assert payload[4..4 + |t.octets|] == BuildTarget(t)[4..] == t.octets;
    }
    if ParseTarget(payload) == Some(t) {
      BE16Surjective(payload[1..3]);
      assert payload[..4 + |t.octets|] == BuildTarget(t);
    }
  }

  // The bytes of a target: command 1, the port, the kind of address, the address.
  lemma TargetBytes(t: Target)
    requires ValidTarget(t)
    ensures var b := BuildTarget(t);
      && b[0] == 1 && b[1] as int * 256 + b[2] == t.port
      && (t.V4? ==> |b| == 8 && b[3] == 1 && b[4..8] == t.octets)
      && (t.V6? ==> |b| == 20 && b[3] == 4 && b[4..20] == t.octets)
  {
  }

  // ---- State ----

  // `born` and `proven` point into the log: the handshake that created the session and the data
  // packet that completed it.
  datatype Entry =
    | PendingEntry(rxKey: Key, txKey: Key, counter: Window, born: nat)
    | EstablishedEntry(rxKey: Key, born: nat, proven: nat)

  datatype Fact =
    | Verified(addr: Addr, datagram: seq<byte>, secret: Key, nonce: Nonce, rxKey: Key, txKey: Key)
    | FreshData(addr: Addr, rxKey: Key, datagram: seq<byte>, packetId: u32, target: Target)

  // Where the receive loop is; it holds no lock at these points.
  datatype Loop =
    | Receiving
    | SlowPath(addr: Addr, datagram: seq<byte>)
    | Connecting(addr: Addr, rxKey: Key, txKey: Key, born: nat, proven: nat)
    | Spawned(addr: Addr, rxKey: Key, born: nat, proven: nat)

  datatype Relay = Relay(addr: Addr, running: bool)

  datatype State = State(table: map<Addr, Entry>, loop: Loop, relays: map<RelayId, Relay>, log: seq<Fact>)

  const START := State(map[], Receiving, map[], [])

  datatype Event =
    | Receive(addr: Addr, datagram: seq<byte>)
    | HandleSlow(serverSecret: Key, serverNonce: Nonce)
    | ConnectFails | ConnectSucceeds(relay: RelayId)
    | Establish
    | RelayStops(relay: RelayId) | RelayRemoves(relay: RelayId)

  predicate Enabled(s: State, e: Event)
  {
    match e
    case Receive(_, _) => s.loop == Receiving
    case HandleSlow(_, _) => s.loop.SlowPath?
    case ConnectFails => s.loop.Connecting?
    case ConnectSucceeds(r) => s.loop.Connecting? && r !in s.relays
    case Establish => s.loop.Spawned?
    case RelayStops(r) => r in s.relays && s.relays[r].running
    case RelayRemoves(r) => r in s.relays && !s.relays[r].running
  }

  // The slow path on a pending entry, under the entry's lock.
  function HandlePending(v: Server, s: State, a: Addr, datagram: seq<byte>): State
    requires a in s.table && s.table[a].PendingEntry?
  {
    var p := s.table[a];
    match Decode(v.cipher, datagram, DIR_CLIENT_TO_SERVER, p.rxKey, v.xorKey)
    case Err(_) => s.(loop := Receiving)
    case Ok(d) =>
      var (accepted, counter) := Accept(p.counter, d.packetId);
      if !accepted then s.(loop := Receiving)
      else
        match ParseTarget(d.payload)
        case None => s.(table := s.table - {a}, loop := Receiving)
        case Some(t) =>
          s.(table := s.table[a := p.(counter := counter)],
             loop := Connecting(a, p.rxKey, p.txKey, p.born, |s.log|),
             log := s.log + [FreshData(a, p.rxKey, datagram, d.packetId, t)])
  }

  // The slow path on an unknown address: expect a challenge under the pre-session key.
  function HandleUnknown(v: Server, s: State, a: Addr, datagram: seq<byte>, secret: Key, nonce: Nonce): State
  {
    match Decode(v.cipher, datagram, DIR_CLIENT_TO_SERVER, v.preRx, v.xorKey)
    case Err(_) => s.(loop := Receiving)
    case Ok(d) =>
      if |d.payload| != MESSAGE_SIZE then s.(loop := Receiving)
      else
        match ProcessChallenge(v.prims, v.master, FromBytes(d.payload), secret, nonce)
        case None => s.(loop := Receiving)
        case Some((response, keys)) =>
          s.(table := s.table[a := PendingEntry(keys.rxKey, keys.txKey, FRESH, |s.log|)],
             loop := Receiving,
             log := s.log + [Verified(a, datagram, secret, nonce, keys.rxKey, keys.txKey)])
  }

  function Next(v: Server, s: State, e: Event): State
    requires Enabled(s, e)
  {
    match e
    case Receive(a, datagram) =>
      // An established session only forwards the payload; nothing in the table changes.
      if a in s.table && s.table[a].EstablishedEntry? then s else s.(loop := SlowPath(a, datagram))
    case HandleSlow(secret, nonce) =>
      var a, datagram := s.loop.addr, s.loop.datagram;
      if a !in s.table then HandleUnknown(v, s, a, datagram, secret, nonce)
      else if s.table[a].PendingEntry? then HandlePending(v, s, a, datagram)
      else s.(loop := Receiving)
    case ConnectFails => s.(table := s.table - {s.loop.addr}, loop := Receiving)
    case ConnectSucceeds(r) =>
      s.(relays := s.relays[r := Relay(s.loop.addr, true)],
         loop := Spawned(s.loop.addr, s.loop.rxKey, s.loop.born, s.loop.proven))
    case Establish =>
      s.(table := s.table[s.loop.addr := EstablishedEntry(s.loop.rxKey, s.loop.born, s.loop.proven)], loop := Receiving)
    case RelayStops(r) => s.(relays := s.relays[r := s.relays[r].(running := false)])
    case RelayRemoves(r) => s.(table := s.table - {s.relays[r].addr}, relays := s.relays - {r})
  }

  function Run(v: Server, es: seq<Event>): Option<State>
  {
    if es == [] then Some(START)
    else
      var e, before := es[|es| - 1], Run(v, es[..|es| - 1]);
      if before.Some? && Enabled(before.value, e) then Some(Next(v, before.value, e)) else None
  }

  // ---- Invariant ----

  predicate HasRelay(s: State, a: Addr)
  {
    exists r <- s.relays :: s.relays[r].addr == a
  }

  ghost predicate OneRelayPerAddr(s: State)
  {
    forall q, r | q in s.relays && r in s.relays && q != r :: s.relays[q].addr != s.relays[r].addr
  }

  // Every relay that has not yet removed its entry finds one: established, or about to be.
  ghost predicate RelaysHaveEntries(s: State)
  {
    forall r <- s.relays ::
      var a := s.relays[r].addr;
      a in s.table && (s.table[a].EstablishedEntry? || (s.loop.Spawned? && s.loop.addr == a))
  }

  // The datagram decoded to a challenge that the server, with its secret and nonce, answered to agree
  // on exactly these keys.
  predicate Agreed(v: Server, f: Fact)
    requires f.Verified?
  {
    var d := Decode(v.cipher, f.datagram, DIR_CLIENT_TO_SERVER, v.preRx, v.xorKey);
    && d.Ok? && |d.value.payload| == MESSAGE_SIZE
    && var answer := ProcessChallenge(v.prims, v.master, FromBytes(d.value.payload), f.secret, f.nonce);
       answer.Some? && answer.value.1 == Session(f.rxKey, f.txKey)
  }

  // The handshake at `k` is the one that created a session for `a` with this key: verified, and the
  // last one verified for that address.
  predicate CreatedBy(v: Server, log: seq<Fact>, a: Addr, rxKey: Key, k: nat)
  {
    && k < |log| && log[k].Verified? && log[k].addr == a && log[k].rxKey == rxKey
    && Agreed(v, log[k])
    && forall j | k < j < |log| :: !(log[j].Verified? && log[j].addr == a)
  }

  // The data packet at `k` decoded under the session key and named a target.
  predicate ProvenBy(v: Server, log: seq<Fact>, a: Addr, rxKey: Key, k: nat)
  {
    && k < |log| && log[k].FreshData? && log[k].addr == a && log[k].rxKey == rxKey
    && var d := Decode(v.cipher, log[k].datagram, DIR_CLIENT_TO_SERVER, rxKey, v.xorKey);
       d.Ok? && d.value.packetId == log[k].packetId && ParseTarget(d.value.payload) == Some(log[k].target)
  }

  ghost predicate EntriesJustified(v: Server, s: State)
  {
    forall a <- s.table ::
      && CreatedBy(v, s.log, a, s.table[a].rxKey, s.table[a].born)
      && (s.table[a].PendingEntry? ==> s.log[s.table[a].born].txKey == s.table[a].txKey)
      && (s.table[a].EstablishedEntry? ==>
            s.table[a].born < s.table[a].proven && ProvenBy(v, s.log, a, s.table[a].rxKey, s.table[a].proven))
  }

  predicate LoopMatchesTable(s: State)
  {
    match s.loop
    case Receiving => true
    case SlowPath(a, _) => a !in s.table || s.table[a].PendingEntry?
    case Connecting(a, rx, tx, born, _) =>
      && !HasRelay(s, a)
      && a in s.table && s.table[a].PendingEntry?
      && s.table[a].rxKey == rx && s.table[a].txKey == tx && s.table[a].born == born
    case Spawned(a, _, _, _) => a in s.table ==> s.table[a].PendingEntry?
  }

  predicate LoopJustified(v: Server, s: State)
  {
    match s.loop
    case Connecting(a, rx, _, born, proven) =>
      CreatedBy(v, s.log, a, rx, born) && born < proven && ProvenBy(v, s.log, a, rx, proven)
    case Spawned(a, rx, born, proven) =>
      CreatedBy(v, s.log, a, rx, born) && born < proven && ProvenBy(v, s.log, a, rx, proven)
    case _ => true
  }

  // A pending session that is not being connected has accepted nothing yet.
  ghost predicate CountersFresh(s: State)
  {
    forall a <- s.table ::
      s.table[a].PendingEntry? && !((s.loop.Connecting? || s.loop.Spawned?) && s.loop.addr == a) ==>
        s.table[a].counter == FRESH
  }

  // Who is where.
  ghost predicate Topology(s: State)
  {
    OneRelayPerAddr(s) && RelaysHaveEntries(s) && LoopMatchesTable(s) && CountersFresh(s)
  }

  // Why it is there.
  ghost predicate Justified(v: Server, s: State)
  {
    EntriesJustified(v, s) && LoopJustified(v, s)
  }

  ghost predicate Inv(v: Server, s: State)
  {
    Topology(s) && Justified(v, s)
  }

  lemma FreshCounterAcceptsAnything(id: u32)
    ensures Accept(FRESH, id).0
  {
    NoBitOfZero(0);
  }

  lemma LogGrows(v: Server, log: seq<Fact>, f: Fact, a: Addr, rxKey: Key, k: nat)
    ensures CreatedBy(v, log, a, rxKey, k) && !(f.Verified? && f.addr == a) ==> CreatedBy(v, log + [f], a, rxKey, k)
    ensures ProvenBy(v, log, a, rxKey, k) ==> ProvenBy(v, log + [f], a, rxKey, k)
  {
  }

  // A longer log justifies every entry it justified before, unless it tells of a new handshake.
  lemma LogKeepsJustified(v: Server, s: State, f: Fact)
    requires EntriesJustified(v, s) && (f.Verified? ==> f.addr !in s.table)
    ensures EntriesJustified(v, s.(log := s.log + [f]))
  {
    forall b <- s.table
      ensures CreatedBy(v, s.log + [f], b, s.table[b].rxKey, s.table[b].born)
      ensures s.table[b].EstablishedEntry? ==> ProvenBy(v, s.log + [f], b, s.table[b].rxKey, s.table[b].proven)
    {
      LogGrows(v, s.log, f, b, s.table[b].rxKey, s.table[b].born);
      if s.table[b].EstablishedEntry? {
        LogGrows(v, s.log, f, b, s.table[b].rxKey, s.table[b].proven);
      }
    }
  }

  lemma NewPendingTopology(s: State, d: State, a: Addr, f: Fact)
    requires Topology(s) && s.loop.SlowPath? && a !in s.table && f.Verified?
    requires d == s.(table := s.table[a := PendingEntry(f.rxKey, f.txKey, FRESH, |s.log|)], loop := Receiving,
                     log := s.log + [f])
    ensures Topology(d)
  {
    assert d.relays == s.relays;
  }

  lemma NewPendingJustified(v: Server, s: State, d: State, a: Addr, f: Fact)
    requires Justified(v, s) && a !in s.table && f.Verified? && f.addr == a && Agreed(v, f)
    requires d == s.(table := s.table[a := PendingEntry(f.rxKey, f.txKey, FRESH, |s.log|)], loop := Receiving,
                     log := s.log + [f])
    ensures Justified(v, d)
  {
    LogKeepsJustified(v, s, f);
    assert CreatedBy(v, d.log, a, f.rxKey, |s.log|);
  }

  lemma UnknownKeeps(v: Server, s: State, a: Addr, datagram: seq<byte>, secret: Key, nonce: Nonce)
    requires Inv(v, s) && s.loop == SlowPath(a, datagram) && a !in s.table
    ensures Inv(v, HandleUnknown(v, s, a, datagram, secret, nonce))
  {
    var d := HandleUnknown(v, s, a, datagram, secret, nonce);
    if d.log == s.log {
      IdleKeeps(v, s, d);
    } else {
      var f := d.log[|s.log|];
      NewPendingTopology(s, d, a, f);
      NewPendingJustified(v, s, d, a, f);
    }
  }

  lemma ConnectTopology(s: State, d: State, a: Addr, counter: Window)
    requires Topology(s) && s.loop.SlowPath? && a in s.table && s.table[a].PendingEntry?
    requires d.table == s.table[a := s.table[a].(counter := counter)] && d.relays == s.relays
    requires d.loop.Connecting? && d.loop.addr == a && d.loop.born == s.table[a].born
    requires d.loop.rxKey == s.table[a].rxKey && d.loop.txKey == s.table[a].txKey
    ensures Topology(d)
  {
    assert !HasRelay(s, a);
  }

  lemma ConnectJustified(v: Server, s: State, d: State, a: Addr, f: Fact, counter: Window)
    requires Justified(v, s) && a in s.table && s.table[a].PendingEntry?
    requires f.FreshData? && ProvenBy(v, s.log + [f], a, s.table[a].rxKey, |s.log|)
    requires d == s.(table := s.table[a := s.table[a].(counter := counter)], log := s.log + [f],
                     loop := Connecting(a, s.table[a].rxKey, s.table[a].txKey, s.table[a].born, |s.log|))
    ensures Justified(v, d)
  {
    LogKeepsJustified(v, s, f);
  }

  // Forgetting an address and going back to `recv_from`.
  lemma DropTopology(s: State, d: State, a: Addr)
    requires Topology(s) && a in s.table && s.table[a].PendingEntry?
    requires !s.loop.Spawned? && (s.loop.Connecting? ==> s.loop.addr == a)
    requires d == s.(table := s.table - {a}, loop := Receiving)
    ensures Topology(d)
  {
  }

  lemma DropJustified(v: Server, s: State, d: State, a: Addr)
    requires Justified(v, s) && d == s.(table := s.table - {a}, loop := Receiving)
    ensures Justified(v, d)
  {
  }

  // What the slow path can do with a pending entry.
  lemma PendingOutcomes(v: Server, s: State, a: Addr, datagram: seq<byte>)
    requires a in s.table && s.table[a].PendingEntry?
    ensures var d := HandlePending(v, s, a, datagram); var p := s.table[a];
      || d == s.(loop := Receiving)
      || d == s.(table := s.table - {a}, loop := Receiving)
      || (a in d.table && d.table[a].PendingEntry? && |d.log| > |s.log|
          && var f := d.log[|s.log|];
             && f.FreshData? && ProvenBy(v, s.log + [f], a, p.rxKey, |s.log|)
             && d == s.(table := s.table[a := p.(counter := d.table[a].counter)], log := s.log + [f],
                        loop := Connecting(a, p.rxKey, p.txKey, p.born, |s.log|)))
  {
  }

  lemma PendingKeeps(v: Server, s: State, a: Addr, datagram: seq<byte>)
    requires Inv(v, s) && s.loop == SlowPath(a, datagram) && a in s.table && s.table[a].PendingEntry?
    ensures Inv(v, HandlePending(v, s, a, datagram))
  {
    var d := HandlePending(v, s, a, datagram);
    PendingOutcomes(v, s, a, datagram);
    if d == s.(loop := Receiving) {
      IdleKeeps(v, s, d);
    } else if d == s.(table := s.table - {a}, loop := Receiving) {
      DropTopology(s, d, a);
      DropJustified(v, s, d, a);
    } else {
      ConnectTopology(s, d, a, d.table[a].counter);
      ConnectJustified(v, s, d, a, d.log[|s.log|], d.table[a].counter);
    }
  }

  lemma LoopChangeTopology(s: State, d: State)
    requires Topology(s) && d == s.(loop := d.loop) && !s.loop.Connecting? && !s.loop.Spawned?
    requires d.loop == Receiving
             || (d.loop.SlowPath? && (d.loop.addr in s.table ==> s.table[d.loop.addr].PendingEntry?))
    ensures Topology(d)
  {
    assert d.relays == s.relays;
  }

  lemma LoopChangeJustified(v: Server, s: State, d: State)
    requires Justified(v, s) && d == s.(loop := d.loop) && (d.loop == Receiving || d.loop.SlowPath?)
    ensures Justified(v, d)
  {
  }

  lemma IdleKeeps(v: Server, s: State, d: State)
    requires Inv(v, s) && s.loop.SlowPath? && d == s.(loop := Receiving)
    ensures Inv(v, d)
  {
    LoopChangeTopology(s, d);
    LoopChangeJustified(v, s, d);
  }

  lemma ReceiveKeeps(v: Server, s: State, e: Event)
    requires Inv(v, s) && e.Receive? && Enabled(s, e)
    ensures Inv(v, Next(v, s, e))
  {
    LoopChangeTopology(s, Next(v, s, e));
    LoopChangeJustified(v, s, Next(v, s, e));
  }

  lemma LoopTopology(s: State, d: State, e: Event, v: Server)
    requires Topology(s) && (e.ConnectSucceeds? || e.Establish?) && Enabled(s, e) && d == Next(v, s, e)
    ensures Topology(d)
  {
    if e.ConnectSucceeds? {
      assert forall q <- s.relays :: s.relays[q].addr != s.loop.addr;
    }
  }

  lemma LoopKeepsJustified(v: Server, s: State, e: Event)
    requires Justified(v, s) && (e.ConnectSucceeds? || e.Establish?) && Enabled(s, e)
    ensures Justified(v, Next(v, s, e))
  {
  }

  lemma RelayTopology(s: State, d: State, e: Event, v: Server)
    requires Topology(s) && (e.RelayStops? || e.RelayRemoves?) && Enabled(s, e) && d == Next(v, s, e)
    ensures Topology(d)
  {
    assert forall q <- d.relays :: q in s.relays && d.relays[q].addr == s.relays[q].addr;
    assert forall a :: HasRelay(d, a) ==> HasRelay(s, a);
  }

  lemma RelayKeepsJustified(v: Server, s: State, e: Event)
    requires Justified(v, s) && (e.RelayStops? || e.RelayRemoves?) && Enabled(s, e)
    ensures Justified(v, Next(v, s, e))
  {
  }

  lemma SlowPathKeeps(v: Server, s: State, e: Event)
    requires Inv(v, s) && e.HandleSlow? && Enabled(s, e)
    ensures Inv(v, Next(v, s, e))
  {
    if s.loop.addr !in s.table {
      UnknownKeeps(v, s, s.loop.addr, s.loop.datagram, e.serverSecret, e.serverNonce);
    } else {
      PendingKeeps(v, s, s.loop.addr, s.loop.datagram);
    }
  }

  lemma StepKeeps(v: Server, s: State, e: Event)
    requires Inv(v, s) && Enabled(s, e)
    ensures Inv(v, Next(v, s, e))
  {
    match e
    case Receive(_, _) => ReceiveKeeps(v, s, e);
    case HandleSlow(_, _) => SlowPathKeeps(v, s, e);
    case ConnectFails =>
      DropTopology(s, Next(v, s, e), s.loop.addr);
      DropJustified(v, s, Next(v, s, e), s.loop.addr);
    case ConnectSucceeds(_) => LoopTopology(s, Next(v, s, e), e, v); LoopKeepsJustified(v, s, e);
    case Establish => LoopTopology(s, Next(v, s, e), e, v); LoopKeepsJustified(v, s, e);
    case RelayStops(_) => RelayTopology(s, Next(v, s, e), e, v); RelayKeepsJustified(v, s, e);
    case RelayRemoves(_) => RelayTopology(s, Next(v, s, e), e, v); RelayKeepsJustified(v, s, e);
  }

  lemma {:induction false} RunInv(v: Server, es: seq<Event>)
    requires Run(v, es).Some?
    ensures Inv(v, Run(v, es).value)
  {
    if es != [] {
      RunInv(v, es[..|es| - 1]);
      StepKeeps(v, Run(v, es[..|es| - 1]).value, es[|es| - 1]);
    }
  }

  // ---- What it means for the clients ----

  // At most one relay per client address, and while it lives its session is in the table.
  lemma OneLiveRelay(v: Server, es: seq<Event>, q: RelayId, r: RelayId)
    requires Run(v, es).Some? && q in Run(v, es).value.relays && r in Run(v, es).value.relays
    ensures var s := Run(v, es).value;
      && (s.relays[q].addr == s.relays[r].addr ==> q == r)
      && s.relays[r].addr in s.table
  {
    RunInv(v, es);
  }

  // ---- What a datagram off the fast path does ----

  ghost predicate NamesTarget(payload: seq<byte>)
  {
    exists t: Target :: ValidTarget(t) && BuildTarget(t) <= payload
  }

  lemma NamesTargetExactly(payload: seq<byte>)
    ensures NamesTarget(payload) <==> ParseTarget(payload).Some?
  {
    if ParseTarget(payload).Some? {
      var t := ParseTarget(payload).value;
      ParseTargetExactly(payload, t);
      assert ValidTarget(t) && BuildTarget(t) <= payload;
    }
    if NamesTarget(payload) {
      var t: Target :| ValidTarget(t) && BuildTarget(t) <= payload;
      ParseTargetExactly(payload, t);
    }
  }

  // What the datagram says under the entry's key.
  function DecodedBy(v: Server, s: State, a: Addr, datagram: seq<byte>): Result<Decoded, CodecError>
    requires a in s.table
  {
    Decode(v.cipher, datagram, DIR_CLIENT_TO_SERVER, s.table[a].rxKey, v.xorKey)
  }

  lemma PendingUndecoded(v: Server, s: State, a: Addr, datagram: seq<byte>)
    requires a in s.table && s.table[a].PendingEntry? && DecodedBy(v, s, a, datagram).Err?
    ensures HandlePending(v, s, a, datagram) == s.(loop := Receiving)
  {
  }

  lemma PendingUntargeted(v: Server, s: State, a: Addr, datagram: seq<byte>)
    requires a in s.table && s.table[a].PendingEntry? && s.table[a].counter == FRESH
    requires DecodedBy(v, s, a, datagram).Ok? && ParseTarget(DecodedBy(v, s, a, datagram).value.payload) == None
    ensures HandlePending(v, s, a, datagram) == s.(table := s.table - {a}, loop := Receiving)
  {
    FreshCounterAcceptsAnything(DecodedBy(v, s, a, datagram).value.packetId);
  }

  // The connection starts; the entry stays pending with its keys, everybody else is left alone.
  predicate Starts(s: State, d: State, a: Addr)
    requires a in s.table && s.table[a].PendingEntry?
  {
    && a in d.table && d.table[a].PendingEntry? && d.table - {a} == s.table - {a} && d.relays == s.relays
    && d.loop.Connecting? && d.loop.addr == a
    && d.loop.rxKey == d.table[a].rxKey == s.table[a].rxKey
    && d.loop.txKey == d.table[a].txKey == s.table[a].txKey
  }

  lemma PendingTargeted(v: Server, s: State, a: Addr, datagram: seq<byte>)
    requires a in s.table && s.table[a].PendingEntry? && s.table[a].counter == FRESH
    requires DecodedBy(v, s, a, datagram).Ok? && ParseTarget(DecodedBy(v, s, a, datagram).value.payload).Some?
    ensures Starts(s, HandlePending(v, s, a, datagram), a)
    ensures Represents(HandlePending(v, s, a, datagram).table[a].counter, {DecodedBy(v, s, a, datagram).value.packetId})
  {
    var id := DecodedBy(v, s, a, datagram).value.packetId;
    FreshCounterAcceptsAnything(id);
    FreshRepresentsNothing();
    AcceptRefinesSet(FRESH, {}, id);
    assert {} + {id} == {id};
    assert HandlePending(v, s, a, datagram).table - {a} == s.table - {a};
  }

  // A pending session: what does not decode under its key changes nothing; what decodes and names a
  // target starts the connection; anything else that decodes ends the session.
  lemma PendingExactly(v: Server, es: seq<Event>, secret: Key, nonce: Nonce)
    requires Run(v, es).Some? && Run(v, es).value.loop.SlowPath?
    requires Run(v, es).value.loop.addr in Run(v, es).value.table
    ensures var s := Run(v, es).value; var a := s.loop.addr; var d := Next(v, s, HandleSlow(secret, nonce));
      && s.table[a].PendingEntry?
      && var r := DecodedBy(v, s, a, s.loop.datagram);
         && (d == s.(loop := Receiving) <==> r.Err?)
         && (d.loop.Connecting? <==> r.Ok? && NamesTarget(r.value.payload))
         && (d.loop.Connecting? ==> Starts(s, d, a) && Represents(d.table[a].counter, {r.value.packetId}))
         && (a !in d.table <==> r.Ok? && !NamesTarget(r.value.payload))
         && (a !in d.table ==> d == s.(table := s.table - {a}, loop := Receiving))
  {
    var s := Run(v, es).value;
    RunInv(v, es);
    SlowPathIsFresh(s);
    var a := s.loop.addr;
    var r := DecodedBy(v, s, a, s.loop.datagram);
    if r.Err? {
      PendingUndecoded(v, s, a, s.loop.datagram);
    } else {
      NamesTargetExactly(r.value.payload);
      if ParseTarget(r.value.payload).Some? {
        PendingTargeted(v, s, a, s.loop.datagram);
      } else {
        PendingUntargeted(v, s, a, s.loop.datagram);
      }
    }
  }

  // A challenge off the wire: 76 bytes, of which the last 32 are the MAC of the first 44.
  predicate IsChallenge(v: Server, payload: seq<byte>)
  {
    |payload| == 76 && v.prims.mac(v.master, payload[..44]) == payload[44..]
  }

  lemma ChallengeExactly(v: Server, payload: seq<byte>, secret: Key, nonce: Nonce)
    requires |payload| == 76
    ensures var answer := ProcessChallenge(v.prims, v.master, FromBytes(payload), secret, nonce);
      && (answer.Some? <==> IsChallenge(v, payload))
      && (answer.Some? ==>
            var shared := v.prims.dh(secret, payload[12..44]);
            answer.value.1 == Session(v.prims.kdf("Hidekey-Client-to-Server-Cipher", shared),
                                      v.prims.kdf("Hidekey-Server-to-Client-Cipher", shared)))
  {
    ProcessChallengeExactly(v.prims, v.master, FromBytes(payload), secret, nonce);
    MessageRoundTrip(FromBytes(payload), payload);
    assert payload[44..] == payload[44..76];
  }

  // The datagram decodes under the pre-session key to a challenge.
  predicate CarriesChallenge(v: Server, datagram: seq<byte>)
  {
    var r := Decode(v.cipher, datagram, DIR_CLIENT_TO_SERVER, v.preRx, v.xorKey);
    r.Ok? && IsChallenge(v, r.value.payload)
  }

  // The session that answering it makes.
  function NewSession(v: Server, datagram: seq<byte>, secret: Key, born: nat): Entry
    requires CarriesChallenge(v, datagram)
  {
    var payload := Decode(v.cipher, datagram, DIR_CLIENT_TO_SERVER, v.preRx, v.xorKey).value.payload;
    var shared := v.prims.dh(secret, payload[12..44]);
    PendingEntry(v.prims.kdf("Hidekey-Client-to-Server-Cipher", shared),
                 v.prims.kdf("Hidekey-Server-to-Client-Cipher", shared), FRESH, born)
  }

  lemma UnknownIgnored(v: Server, s: State, a: Addr, datagram: seq<byte>, secret: Key, nonce: Nonce)
    requires !CarriesChallenge(v, datagram)
    ensures HandleUnknown(v, s, a, datagram, secret, nonce) == s.(loop := Receiving)
  {
    var r := Decode(v.cipher, datagram, DIR_CLIENT_TO_SERVER, v.preRx, v.xorKey);
    if r.Ok? && |r.value.payload| == 76 {
      ChallengeExactly(v, r.value.payload, secret, nonce);
    }
  }

  lemma UnknownAdmitted(v: Server, s: State, a: Addr, datagram: seq<byte>, secret: Key, nonce: Nonce)
    requires CarriesChallenge(v, datagram)
    ensures var d := HandleUnknown(v, s, a, datagram, secret, nonce);
      && d.table == s.table[a := NewSession(v, datagram, secret, |s.log|)]
      && d.loop == Receiving && d.relays == s.relays
  {
    var r := Decode(v.cipher, datagram, DIR_CLIENT_TO_SERVER, v.preRx, v.xorKey);
    ChallengeExactly(v, r.value.payload, secret, nonce);
  }

  // An unknown address: a session appears exactly for an authentic challenge under the pre-session key,
  // with the keys of the shared secret; anything else changes nothing.
  lemma UnknownExactly(v: Server, s: State, secret: Key, nonce: Nonce)
    requires s.loop.SlowPath? && s.loop.addr !in s.table
    ensures var a, datagram := s.loop.addr, s.loop.datagram; var d := Next(v, s, HandleSlow(secret, nonce));
      && (a in d.table <==> CarriesChallenge(v, datagram))
      && (a !in d.table ==> d == s.(loop := Receiving))
      && (a in d.table ==>
            && d.table == s.table[a := NewSession(v, datagram, secret, |s.log|)]
            && d.loop == Receiving && d.relays == s.relays)
  {
    if CarriesChallenge(v, s.loop.datagram) {
      UnknownAdmitted(v, s, s.loop.addr, s.loop.datagram, secret, nonce);
    } else {
      UnknownIgnored(v, s, s.loop.addr, s.loop.datagram, secret, nonce);
    }
  }

  // Off the slow path, only the end of a connection attempt, its success and the end of a relay touch
  // the table, and only the entry of their own address.
  lemma TableElsewhereExactly(v: Server, s: State, e: Event)
    requires Enabled(s, e) && !e.HandleSlow?
    ensures var t := Next(v, s, e).table;
      && (e.Receive? || e.ConnectSucceeds? || e.RelayStops? ==> t == s.table)
      && (e.ConnectFails? ==> t == s.table - {s.loop.addr})
      && (e.RelayRemoves? ==> t == s.table - {s.relays[e.relay].addr})
      && (e.Establish? ==>
            && s.loop.addr in t && t[s.loop.addr].EstablishedEntry? && t[s.loop.addr].rxKey == s.loop.rxKey
            && t - {s.loop.addr} == s.table - {s.loop.addr})
  {
  }

  // The verified datagram carried an authentic challenge, MACed under the master key.
  predicate ChallengeBehind(v: Server, f: Fact)
  {
    f.Verified? &&
    var d := Decode(v.cipher, f.datagram, DIR_CLIENT_TO_SERVER, v.preRx, v.xorKey);
    d.Ok? && IsChallenge(v, d.value.payload)
  }

  lemma AgreedMeansChallenge(v: Server, f: Fact)
    requires f.Verified? && Agreed(v, f)
    ensures ChallengeBehind(v, f)
  {
    var d := Decode(v.cipher, f.datagram, DIR_CLIENT_TO_SERVER, v.preRx, v.xorKey);
    ChallengeExactly(v, d.value.payload, f.secret, f.nonce);
  }

  // An established session belongs to the last handshake verified for its address, carries its key,
  // and was completed by a later data packet that decodes under that key and names a target.
  lemma EstablishedIsProven(v: Server, es: seq<Event>, a: Addr)
    requires Run(v, es).Some? && a in Run(v, es).value.table && Run(v, es).value.table[a].EstablishedEntry?
    ensures var s := Run(v, es).value; var entry := s.table[a];
      && CreatedBy(v, s.log, a, entry.rxKey, entry.born) && Agreed(v, s.log[entry.born])
      && ChallengeBehind(v, s.log[entry.born])
      && entry.born < entry.proven
      && ProvenBy(v, s.log, a, entry.rxKey, entry.proven)
  {
    RunInv(v, es);
    AgreedMeansChallenge(v, Run(v, es).value.log[Run(v, es).value.table[a].born]);
  }

  lemma SlowPathIsFresh(s: State)
    requires CountersFresh(s) && s.loop.SlowPath?
    ensures var a := s.loop.addr; a in s.table && s.table[a].PendingEntry? ==> s.table[a].counter == FRESH
  {
  }

  // The replay check of a pending session never rejects: its counter has accepted nothing before.
  lemma PendingNeverSeesReplay(v: Server, es: seq<Event>, id: u32)
    requires Run(v, es).Some? && Run(v, es).value.loop.SlowPath?
    ensures var s := Run(v, es).value; var a := s.loop.addr;
      a in s.table && s.table[a].PendingEntry? ==> Accept(s.table[a].counter, id).0
  {
    RunInv(v, es);
    SlowPathIsFresh(Run(v, es).value);
    FreshCounterAcceptsAnything(id);
  }

  // ---- Established without a relay ----

  // An Established entry whose relay is gone.
  ghost predicate Orphaned(s: State, a: Addr)
  {
    a in s.table && s.table[a].EstablishedEntry? && !HasRelay(s, a)
  }

  // The relay ended, and removed the entry, before the loop inserted it as Established.
  predicate TooLate(s: State, e: Event, a: Addr)
  {
    e.Establish? && s.loop.Spawned? && s.loop.addr == a && !HasRelay(s, a)
  }

  lemma SpawnKeepsOrphans(v: Server, s: State, e: Event, a: Addr)
    requires Topology(s) && e.ConnectSucceeds? && Enabled(s, e)
    ensures Orphaned(Next(v, s, e), a) <==> Orphaned(s, a)
  {
    var d := Next(v, s, e);
    assert e.relay in d.relays && d.relays[e.relay].addr == s.loop.addr;
    assert forall q <- s.relays :: q in d.relays && d.relays[q].addr == s.relays[q].addr;
    assert forall q <- d.relays :: q != e.relay ==> q in s.relays;
  }

  lemma StopKeepsOrphans(v: Server, s: State, e: Event, a: Addr)
    requires e.RelayStops? && Enabled(s, e)
    ensures Orphaned(Next(v, s, e), a) <==> Orphaned(s, a)
  {
    var d := Next(v, s, e);
    assert forall q <- s.relays :: q in d.relays && d.relays[q].addr == s.relays[q].addr;
    assert forall q <- d.relays :: q in s.relays;
  }

  lemma RemovalKeepsOrphans(v: Server, s: State, e: Event, a: Addr)
    requires e.RelayRemoves? && Enabled(s, e)
    ensures Orphaned(Next(v, s, e), a) <==> Orphaned(s, a)
  {
    var d, gone := Next(v, s, e), s.relays[e.relay].addr;
    assert forall q <- d.relays :: q in s.relays && d.relays[q].addr == s.relays[q].addr;
    if a != gone && HasRelay(s, a) {
      var q :| q in s.relays && s.relays[q].addr == a;
      assert q in d.relays;
    }
  }

  lemma SlowPathKeepsOrphans(v: Server, s: State, e: Event, a: Addr)
    requires Topology(s) && Enabled(s, e) && e.HandleSlow?
    ensures Next(v, s, e).relays == s.relays
    ensures Orphaned(s, a) ==> a != s.loop.addr
    ensures a != s.loop.addr ==> (a in Next(v, s, e).table <==> a in s.table)
    ensures a != s.loop.addr && a in s.table ==> Next(v, s, e).table[a] == s.table[a]
    ensures a == s.loop.addr && a in Next(v, s, e).table ==> Next(v, s, e).table[a].PendingEntry?
  {
    var b := s.loop.addr;
    if b in s.table && s.table[b].PendingEntry? {
      PendingOutcomes(v, s, b, s.loop.datagram);
    }
  }

  lemma HandlingKeepsOrphans(v: Server, s: State, e: Event, a: Addr)
    requires Topology(s) && Enabled(s, e) && (e.Receive? || e.ConnectFails?)
    ensures Orphaned(Next(v, s, e), a) <==> Orphaned(s, a)
    ensures Orphaned(s, a) ==> Next(v, s, e).table[a] == s.table[a]
  {
    assert Next(v, s, e).relays == s.relays;
  }

  // A step leaves an Established entry without a relay exactly if it found it so, or inserts it after
  // its relay is gone.
  lemma OrphanExactly(v: Server, s: State, e: Event, a: Addr)
    requires Topology(s) && Enabled(s, e)
    ensures Orphaned(Next(v, s, e), a) <==> Orphaned(s, a) || TooLate(s, e, a)
    ensures Orphaned(s, a) ==> Next(v, s, e).table[a] == s.table[a]
  {
    match e
    case ConnectSucceeds(_) => SpawnKeepsOrphans(v, s, e, a);
    case RelayStops(_) => StopKeepsOrphans(v, s, e, a);
    case RelayRemoves(_) => RemovalKeepsOrphans(v, s, e, a);
    case HandleSlow(_, _) => SlowPathKeepsOrphans(v, s, e, a);
    case Establish =>
    case _ => HandlingKeepsOrphans(v, s, e, a);
  }

  ghost predicate LateAt(v: Server, es: seq<Event>, i: nat, a: Addr)
    requires i < |es|
  {
    Run(v, es[..i]).Some? && TooLate(Run(v, es[..i]).value, es[i], a)
  }

  ghost predicate EverLate(v: Server, es: seq<Event>, a: Addr)
  {
    exists i :: 0 <= i < |es| && LateAt(v, es, i, a)
  }

  lemma EverLateSnoc(v: Server, es: seq<Event>, e: Event, a: Addr)
    requires Run(v, es).Some?
    ensures EverLate(v, es + [e], a) <==> EverLate(v, es, a) || TooLate(Run(v, es).value, e, a)
  {
    var longer := es + [e];
    assert longer[..|es|] == es;
    assert LateAt(v, longer, |es|, a) == TooLate(Run(v, es).value, e, a);
    forall i | 0 <= i < |es|
      ensures LateAt(v, es, i, a) == LateAt(v, longer, i, a)
    {
      assert longer[..i] == es[..i] && longer[i] == es[i];
    }
  }

  lemma LastStepOrphans(v: Server, es: seq<Event>, e: Event, a: Addr)
    requires Run(v, es + [e]).Some?
    ensures Run(v, es).Some?
    ensures Orphaned(Run(v, es + [e]).value, a) <==> Orphaned(Run(v, es).value, a) || TooLate(Run(v, es).value, e, a)
  {
    assert (es + [e])[..|es|] == es;
    RunInv(v, es);
    OrphanExactly(v, Run(v, es).value, e, a);
  }

  // Over whole runs: an Established session lacks its relay exactly if at some point of the run it was
  // inserted after its relay was gone.
  lemma {:induction false} OrphanedExactly(v: Server, es: seq<Event>, a: Addr)
    requires Run(v, es).Some?
    ensures Orphaned(Run(v, es).value, a) <==> EverLate(v, es, a)
  {
    if es != [] {
      var init, e := es[..|es| - 1], es[|es| - 1];
      assert es == init + [e];
      LastStepOrphans(v, init, e, a);
      OrphanedExactly(v, init, a);
      EverLateSnoc(v, init, e, a);
    }
  }

  // Such an entry is never removed again: no later event gives the address a new session.
  lemma {:induction false} OrphanIsPermanent(v: Server, es: seq<Event>, more: seq<Event>, a: Addr)
    requires Run(v, es + more).Some? && Run(v, es).Some? && Orphaned(Run(v, es).value, a)
    ensures Orphaned(Run(v, es + more).value, a)
    ensures Run(v, es + more).value.table[a] == Run(v, es).value.table[a]
    decreases |more|
  {
    if more == [] {
      assert es + more == es;
    } else {
      var last := |more| - 1;
      assert (es + more)[..|es + more| - 1] == es + more[..last];
      OrphanIsPermanent(v, es, more[..last], a);
      RunInv(v, es + more[..last]);
      OrphanExactly(v, Run(v, es + more[..last]).value, more[last], a);
    }
  }

  // The connection completes and its relay runs out before the entry is inserted.
  function Finish(v: Server, s: State, r: RelayId): State
    requires s.loop.Connecting? && r !in s.relays
  {
    var s1 := Next(v, s, ConnectSucceeds(r));
    var s2 := Next(v, s1, RelayStops(r));
    var s3 := Next(v, s2, RelayRemoves(r));
    Next(v, s3, Establish)
  }

  lemma FinishOrphans(v: Server, s: State, r: RelayId)
    requires Topology(s) && s.loop.Connecting? && r !in s.relays
    ensures Orphaned(Finish(v, s, r), s.loop.addr)
  {
    var s4 := Finish(v, s, r);
    assert s.relays[r := Relay(s.loop.addr, true)][r := Relay(s.loop.addr, false)] - {r} == s.relays;
    assert s4.relays == s.relays;
  }

  lemma Follow(v: Server, es: seq<Event>, s: State, e: Event)
    requires Run(v, es) == Some(s) && Enabled(s, e)
    ensures Run(v, es + [e]) == Some(Next(v, s, e))
  {
    assert (es + [e])[..|es|] == es;
  }

  lemma FinishRuns(v: Server, es: seq<Event>, s: State, r: RelayId)
    requires Run(v, es) == Some(s) && s.loop.Connecting? && r !in s.relays
    ensures Run(v, es + [ConnectSucceeds(r)] + [RelayStops(r)] + [RelayRemoves(r)] + [Establish])
         == Some(Finish(v, s, r))
  {
    Follow(v, es, s, ConnectSucceeds(r));
    var s1 := Next(v, s, ConnectSucceeds(r));
    Follow(v, es + [ConnectSucceeds(r)], s1, RelayStops(r));
    var s2 := Next(v, s1, RelayStops(r));
    Follow(v, es + [ConnectSucceeds(r)] + [RelayStops(r)], s2, RelayRemoves(r));
    var s3 := Next(v, s2, RelayRemoves(r));
    Follow(v, es + [ConnectSucceeds(r)] + [RelayStops(r)] + [RelayRemoves(r)], s3, Establish);
  }

  // Every run that is about to connect can go on like this.
  lemma RelayCanEndBeforeEntry(v: Server, es: seq<Event>, r: RelayId)
    requires Run(v, es).Some? && Run(v, es).value.loop.Connecting? && r !in Run(v, es).value.relays
    ensures var longer := Run(v, es + [ConnectSucceeds(r)] + [RelayStops(r)] + [RelayRemoves(r)] + [Establish]);
      longer.Some? && Orphaned(longer.value, Run(v, es).value.loop.addr)
  {
    RunInv(v, es);
    FinishRuns(v, es, Run(v, es).value, r);
    FinishOrphans(v, Run(v, es).value, r);
  }

  // ---- A run that gets there ----

  const ZERO_KEY: Key := Zeros(32)
  const NO_MASK: XorKey := [0, 0, 0, 0]

  // Transparent cryptography: it meets every hypothesis of this project.
  const PLAIN_SERVER :=
    Server(PLAIN, Primitives((_, _) => ZERO_KEY, (_, _) => ZERO_KEY, k => k, (_, _) => ZERO_KEY),
           ZERO_KEY, NO_MASK, ZERO_KEY)

  function PlainDatagram(payload: seq<byte>): seq<byte>
    requires |payload| <= 862
  {
    EncodesPlain(payload);
    Encode(PLAIN, payload, 0, DIR_CLIENT_TO_SERVER, ZERO_KEY, NO_MASK, Zeros(16)).value
  }

  lemma EncodesPlain(payload: seq<byte>)
    requires |payload| <= 862
    ensures Encode(PLAIN, payload, 0, DIR_CLIENT_TO_SERVER, ZERO_KEY, NO_MASK, Zeros(16)).Ok?
  {
    PlainIsIdeal();
    EncodesExactlyUpTo862(PLAIN, payload, 0, DIR_CLIENT_TO_SERVER, ZERO_KEY, NO_MASK, Zeros(16));
  }

  lemma PlainDatagramDecodes(payload: seq<byte>)
    requires |payload| <= 862
    ensures Decode(PLAIN, PlainDatagram(payload), DIR_CLIENT_TO_SERVER, ZERO_KEY, NO_MASK) == Ok(Decoded(0, payload))
  {
    PlainIsIdeal();
    var ct := Ciphertext(PLAIN, payload, 0, DIR_CLIENT_TO_SERVER, ZERO_KEY, NO_MASK);
    DecodeUndoesEncodeExactly(PLAIN, payload, 0, DIR_CLIENT_TO_SERVER, ZERO_KEY, NO_MASK, Zeros(16));
    assert ct[..4] == BE32(0) == Zeros(4) == ZERO_KEY[..4];
    assert XorAll(Zeros(4), Zeros(4)) == Zeros(4);
  }

  // A challenge, a data packet for 1.2.3.4:80, and a relay that ends at once.
  lemma EstablishedWithoutRelay() returns (es: seq<Event>)
    ensures Run(PLAIN_SERVER, es).Some? && Orphaned(Run(PLAIN_SERVER, es).value, 0)
  {
    var v := PLAIN_SERVER;
    var s := START;
    es := [];
    var hello, first := PlainDatagram(Zeros(MESSAGE_SIZE)), PlainDatagram(BuildTarget(V4([1, 2, 3, 4], 80)));
    var t := s.(loop := SlowPath(0, hello));
    Follow(v, es, s, Receive(0, hello));
    es := es + [Receive(0, hello)];
    ChallengeAccepted();
    s := AfterChallenge();
    Follow(v, es, t, HandleSlow(ZERO_KEY, Zeros(12)));
    es := es + [HandleSlow(ZERO_KEY, Zeros(12))];
    t := s.(loop := SlowPath(0, first));
    Follow(v, es, s, Receive(0, first));
    es := es + [Receive(0, first)];
    FirstPacketAccepted();
    Follow(v, es, t, HandleSlow(ZERO_KEY, Zeros(12)));
    es := es + [HandleSlow(ZERO_KEY, Zeros(12))];
    RelayCanEndBeforeEntry(v, es, 7);
    es := es + [ConnectSucceeds(7)] + [RelayStops(7)] + [RelayRemoves(7)] + [Establish];
  }

  function AfterChallenge(): State
  {
    START.(table := map[0 := PendingEntry(ZERO_KEY, ZERO_KEY, FRESH, 0)],
           log := [Verified(0, PlainDatagram(Zeros(MESSAGE_SIZE)), ZERO_KEY, Zeros(12), ZERO_KEY, ZERO_KEY)])
  }

  lemma ChallengeAccepted()
    ensures var hello := PlainDatagram(Zeros(MESSAGE_SIZE));
      Next(PLAIN_SERVER, START.(loop := SlowPath(0, hello)), HandleSlow(ZERO_KEY, Zeros(12))) == AfterChallenge()
  {
    PlainDatagramDecodes(Zeros(MESSAGE_SIZE));
    assert FromBytes(Zeros(MESSAGE_SIZE)).mac == ZERO_KEY;
  }

  lemma FirstPacketAccepted()
    ensures var first := PlainDatagram(BuildTarget(V4([1, 2, 3, 4], 80)));
      var d := Next(PLAIN_SERVER, AfterChallenge().(loop := SlowPath(0, first)), HandleSlow(ZERO_KEY, Zeros(12)));
      d.loop == Connecting(0, ZERO_KEY, ZERO_KEY, 0, 1) && d.relays == map[]
  {
    var t := V4([1, 2, 3, 4], 80);
    PlainDatagramDecodes(BuildTarget(t));
    ParseTargetExactly(BuildTarget(t), t);
    FreshCounterAcceptsAnything(0);
  }
}
