// The packet sink of the user-space stack: a one-item slot in front of the protocol channels.
module StackSink {
  import opened Bytes

  datatype Protocol = Tcp | Udp | Icmp | Icmpv6 | Other

  // What `IpPacket::new_checked` and the address filters say about a packet, and which channels exist.
  datatype Config = Config(
    parse: seq<byte> -> Option<Protocol>, allowed: seq<byte> -> bool,
    tcp: bool, udp: bool, icmp: bool)

  // ICMP packets travel through the TCP channel.
  datatype Channel = TcpChannel | UdpChannel

  datatype Reason = Empty | Invalid | Filtered | UnknownProtocol | Disabled | ChannelClosed | Overwritten

  datatype Fate = InSlot | Delivered(channel: Channel) | Dropped(reason: Reason)

  // What the channel answers to `poll_reserve` and the send that follows it.
  datatype Answer = Full | Closed | Accepts

  datatype Reply = Pending | Ready | Error

  datatype Sink = Sink(
    slot: Option<(nat, Protocol)>,  // submission index of the buffered packet
    submitted: seq<seq<byte>>,
    fates: seq<Fate>,               // one per submitted packet
    tcpLog: seq<nat>, udpLog: seq<nat>,
    readied: bool)                  // the last `poll_ready` said yes and nothing was submitted since

  // The slot's packet is one of the submitted ones.
  predicate InRange(s: Sink)
  {
    s.slot.Some? ==> s.slot.value.0 < |s.fates|
  }

  const EMPTY := Sink(None, [], [], [], [], false)

  predicate HasChannel(c: Config, p: Protocol)
  {
    match p case Tcp => c.tcp case Udp => c.udp case Icmp => c.icmp case Icmpv6 => c.icmp case Other => false
  }

  function ChannelOf(p: Protocol): Channel
  {
    if p == Udp then UdpChannel else TcpChannel
  }

  function SendSlot(c: Config, s: Sink, a: Answer): (Reply, Sink)
    requires InRange(s)
  {
    if s.slot == None then (Ready, s)
    else
      var (i, p) := s.slot.value;
      var taken := s.(slot := None);
      if !HasChannel(c, p) then (Ready, taken.(fates := s.fates[i := Dropped(Disabled)]))
      else if a == Full then (Pending, s)
      else if a == Closed then (Error, taken.(fates := s.fates[i := Dropped(ChannelClosed)]))
      else if ChannelOf(p) == UdpChannel then
        (Ready, taken.(fates := s.fates[i := Delivered(UdpChannel)], udpLog := s.udpLog + [i]))
      else (Ready, taken.(fates := s.fates[i := Delivered(TcpChannel)], tcpLog := s.tcpLog + [i]))
  }

  function ReadySlot(c: Config, s: Sink, a: Answer): (Reply, Sink)
    requires InRange(s)
  {
    if s.slot == None then (Ready, s.(readied := true))
    else
      var (r, d) := SendSlot(c, s, a);
      (r, d.(readied := r == Ready))
  }

  // The packet's fate on submission, and its protocol if it is kept.
  function Classify(c: Config, item: seq<byte>): (Fate, Protocol)
  {
    if item == [] then (Dropped(Empty), Other)
    else
      match c.parse(item)
      case None => (Dropped(Invalid), Other)
      case Some(p) =>
        if !c.allowed(item) then (Dropped(Filtered), p)
        else if p == Other then (Dropped(UnknownProtocol), p)
        else (InSlot, p)
  }

  // A packet that is kept takes the slot; one that still lies there is overwritten.
  function Submit(c: Config, s: Sink, item: seq<byte>): (Reply, Sink)
    requires InRange(s)
  {
    var (fate, p) := Classify(c, item);
    var kept := if fate == InSlot && s.slot.Some? then s.fates[s.slot.value.0 := Dropped(Overwritten)] else s.fates;
    (if fate == Dropped(Invalid) then Error else Ready,
     s.(slot := if fate == InSlot then Some((|s.fates|, p)) else s.slot,
        submitted := s.submitted + [item], fates := kept + [fate], readied := false))
  }

  datatype Call = PollReady(a: Answer) | StartSend(item: seq<byte>) | PollFlush(a: Answer)

  function Perform(c: Config, s: Sink, call: Call): (d: Sink)
    requires InRange(s)
    ensures InRange(d)
  {
    match call
    case PollReady(a) => ReadySlot(c, s, a).1
    case StartSend(item) => Submit(c, s, item).1
    case PollFlush(a) => SendSlot(c, s, a).1
  }

  // Any sequence of calls, whether or not it keeps to the sink contract.
  function Run(c: Config, calls: seq<Call>): (s: Sink)
    ensures InRange(s)
  {
    if calls == [] then EMPTY else Perform(c, Run(c, calls[..|calls| - 1]), calls[|calls| - 1])
  }

  // ---- Invariant ----

  // The submissions with a given fate, in submission order.
  function Select(fates: seq<Fate>, f: Fate): seq<nat>
  {
    if fates == [] then []
    else
      var n := |fates| - 1;
      if fates[n] == f then Select(fates[..n], f) + [n] else Select(fates[..n], f)
  }

  // Behind the buffered packet everything was dropped.
  predicate SlotSound(s: Sink)
  {
    match s.slot
    case None => true
    case Some((i, p)) =>
      i < |s.fates| && s.fates[i] == InSlot && p != Other && forall j :: i < j < |s.fates| ==> s.fates[j].Dropped?
  }

  ghost predicate Inv(s: Sink)
  {
    && |s.fates| == |s.submitted|
    && (s.readied ==> s.slot == None)
    && SlotSound(s)
    && (forall i :: 0 <= i < |s.fates| && s.fates[i] == InSlot ==> s.slot.Some? && s.slot.value.0 == i)
    && s.tcpLog == Select(s.fates, Delivered(TcpChannel))
    && s.udpLog == Select(s.fates, Delivered(UdpChannel))
  }

  // Giving the buffered packet its fate adds it to the end of the selection of that fate.
  lemma {:induction false} SelectReplace(fates: seq<Fate>, i: nat, g: Fate, f: Fate)
    requires i < |fates| && fates[i] != f && forall j :: i < j < |fates| ==> fates[j] != f
    ensures Select(fates[i := g], f) == if g == f then Select(fates, f) + [i] else Select(fates, f)
  {
    var n := |fates| - 1;
    if i < n {
      assert fates[i := g][..n] == fates[..n][i := g];
      SelectReplace(fates[..n], i, g, f);
    } else {
      assert fates[i := g][..n] == fates[..n];
    }
  }

  lemma SelectSnoc(fates: seq<Fate>, g: Fate, f: Fate)
    ensures Select(fates + [g], f) == if g == f then Select(fates, f) + [|fates|] else Select(fates, f)
  {
    assert (fates + [g])[..|fates|] == fates;
  }

  lemma {:induction false} SelectedHaveFate(fates: seq<Fate>, f: Fate, k: nat)
    requires k < |Select(fates, f)|
    ensures Select(fates, f)[k] < |fates| && fates[Select(fates, f)[k]] == f
    ensures forall j :: 0 <= j < k ==> Select(fates, f)[j] < Select(fates, f)[k]
  {
    var n := |fates| - 1;
    var init := Select(fates[..n], f);
    if k < |init| {
      SelectedHaveFate(fates[..n], f, k);
    } else {
      forall j | 0 <= j < k
        ensures Select(fates, f)[j] < n
      {
        SelectedHaveFate(fates[..n], f, j);
      }
    }
  }

  lemma SendSlotKeeps(c: Config, s: Sink, a: Answer)
    requires Inv(s)
    ensures Inv(SendSlot(c, s, a).1)
  {
    var d := SendSlot(c, s, a).1;
    if s.slot.Some? && d.slot == None {
      var i := s.slot.value.0;
      SelectReplace(s.fates, i, d.fates[i], Delivered(TcpChannel));
      SelectReplace(s.fates, i, d.fates[i], Delivered(UdpChannel));
    }
  }

  lemma SubmitKeeps(c: Config, s: Sink, item: seq<byte>)
    requires Inv(s)
    ensures Inv(Submit(c, s, item).1)
  {
    var g := Classify(c, item).0;
    var kept := if g == InSlot && s.slot.Some? then s.fates[s.slot.value.0 := Dropped(Overwritten)] else s.fates;
    if g == InSlot && s.slot.Some? {
      SelectReplace(s.fates, s.slot.value.0, Dropped(Overwritten), Delivered(TcpChannel));
      SelectReplace(s.fates, s.slot.value.0, Dropped(Overwritten), Delivered(UdpChannel));
    }
    SelectSnoc(kept, g, Delivered(TcpChannel));
    SelectSnoc(kept, g, Delivered(UdpChannel));
  }

  lemma StepKeeps(c: Config, s: Sink, call: Call)
    requires Inv(s)
    ensures Inv(Perform(c, s, call))
  {
    match call
    case PollReady(a) => SendSlotKeeps(c, s, a);
    case PollFlush(a) => SendSlotKeeps(c, s, a);
    case StartSend(item) => SubmitKeeps(c, s, item);
  }

  lemma {:induction false} RunInv(c: Config, calls: seq<Call>)
    ensures Inv(Run(c, calls))
  {
    if calls != [] {
      RunInv(c, calls[..|calls| - 1]);
      StepKeeps(c, Run(c, calls[..|calls| - 1]), calls[|calls| - 1]);
    }
  }

  // Every submitted packet has exactly one fate; the channel logs are exactly the packets delivered
  // to them, in submission order; at most one packet is in the slot, and only drops came after it.
  lemma EveryPacketAccountedFor(c: Config, calls: seq<Call>)
    ensures var s := Run(c, calls);
      && |s.fates| == |s.submitted|
      && s.tcpLog == Select(s.fates, Delivered(TcpChannel)) && s.udpLog == Select(s.fates, Delivered(UdpChannel))
      && SlotSound(s)
      && (forall i :: 0 <= i < |s.fates| && s.fates[i] == InSlot ==> s.slot.Some? && s.slot.value.0 == i)
      && (forall j, k :: 0 <= j < k < |s.tcpLog| ==> s.tcpLog[j] < s.tcpLog[k])
      && (forall j, k :: 0 <= j < k < |s.udpLog| ==> s.udpLog[j] < s.udpLog[k])
  {
    RunInv(c, calls);
    var s := Run(c, calls);
    forall j, k | 0 <= j < k < |s.tcpLog|
      ensures s.tcpLog[j] < s.tcpLog[k]
    {
      SelectedHaveFate(s.fates, Delivered(TcpChannel), k);
    }
    forall j, k | 0 <= j < k < |s.udpLog|
      ensures s.udpLog[j] < s.udpLog[k]
    {
      SelectedHaveFate(s.fates, Delivered(UdpChannel), k);
    }
  }

  // ---- Which packets end where ----

  // The packet's own protocol has a channel that is switched on.
  predicate Enabled(c: Config, p: Protocol)
  {
    || (p == Tcp && c.tcp)
    || (p == Udp && c.udp)
    || ((p == Icmp || p == Icmpv6) && c.icmp)
  }

  // A packet that parses, passes the filters and is of a known protocol.
  predicate Kept(c: Config, item: seq<byte>)
  {
    item != [] && c.parse(item).Some? && c.allowed(item) && c.parse(item).value != Other
  }

  // What a packet's fate says about the packet.
  predicate Explains(c: Config, item: seq<byte>, f: Fate)
  {
    match f
    case InSlot => Kept(c, item)
    case Delivered(UdpChannel) => Kept(c, item) && c.parse(item) == Some(Udp) && c.udp
    case Delivered(TcpChannel) => Kept(c, item) && c.parse(item) != Some(Udp) && Enabled(c, c.parse(item).value)
    case Dropped(Empty) => item == []
    case Dropped(Invalid) => item != [] && c.parse(item) == None
    case Dropped(Filtered) => item != [] && c.parse(item).Some? && !c.allowed(item)
    case Dropped(UnknownProtocol) => item != [] && c.parse(item) == Some(Other) && c.allowed(item)
    case Dropped(Disabled) => Kept(c, item) && !Enabled(c, c.parse(item).value)
    case Dropped(ChannelClosed) => Kept(c, item) && Enabled(c, c.parse(item).value)
    case Dropped(Overwritten) => Kept(c, item)
  }

  ghost predicate Explained(c: Config, s: Sink)
  {
    && |s.fates| == |s.submitted|
    && (forall i :: 0 <= i < |s.fates| ==> Explains(c, s.submitted[i], s.fates[i]))
    && (s.slot.Some? ==> s.slot.value.0 < |s.submitted| && c.parse(s.submitted[s.slot.value.0]) == Some(s.slot.value.1))
  }

  lemma SendSlotExplains(c: Config, s: Sink, a: Answer)
    requires Inv(s) && Explained(c, s)
    ensures Explained(c, SendSlot(c, s, a).1)
  {
    if s.slot.Some? {
      assert Explains(c, s.submitted[s.slot.value.0], s.fates[s.slot.value.0]);
    }
  }

  lemma SubmitExplains(c: Config, s: Sink, item: seq<byte>)
    requires Inv(s) && Explained(c, s)
    ensures Explained(c, Submit(c, s, item).1)
  {
    if s.slot.Some? {
      assert Explains(c, s.submitted[s.slot.value.0], s.fates[s.slot.value.0]);
    }
    assert Explains(c, item, Classify(c, item).0);
  }

  // In every run each packet's fate tells what kind of packet it is.
  lemma {:induction false} FatesExplained(c: Config, calls: seq<Call>)
    ensures Explained(c, Run(c, calls))
  {
    if calls != [] {
      var init, call := calls[..|calls| - 1], calls[|calls| - 1];
      FatesExplained(c, init);
      RunInv(c, init);
      match call
      case PollReady(a) => SendSlotExplains(c, Run(c, init), a);
      case PollFlush(a) => SendSlotExplains(c, Run(c, init), a);
      case StartSend(item) => SubmitExplains(c, Run(c, init), item);
    }
  }

  // The UDP channel gets UDP packets only, the TCP channel TCP and ICMP packets only, each allowed by
  // the filters and only while its protocol is switched on; a packet is dropped as disabled only if
  // its protocol is not.
  lemma ChannelsCarryTheirProtocols(c: Config, calls: seq<Call>, i: nat)
    ensures var s := Run(c, calls);
      && (i in s.udpLog ==>
            i < |s.submitted| && c.parse(s.submitted[i]) == Some(Udp) && c.udp && c.allowed(s.submitted[i]))
      && (i in s.tcpLog ==>
            && i < |s.submitted| && c.allowed(s.submitted[i])
            && ((c.parse(s.submitted[i]) == Some(Tcp) && c.tcp)
                || (c.parse(s.submitted[i]) in {Some(Icmp), Some(Icmpv6)} && c.icmp)))
      && (i < |s.fates| && i < |s.submitted| && s.fates[i] == Dropped(Disabled) ==>
            !(c.parse(s.submitted[i]) == Some(Tcp) && c.tcp)
            && !(c.parse(s.submitted[i]) == Some(Udp) && c.udp)
            && !(c.parse(s.submitted[i]) in {Some(Icmp), Some(Icmpv6)} && c.icmp))
  {
    var s := Run(c, calls);
    RunInv(c, calls);
    FatesExplained(c, calls);
    if i in s.udpLog {
      SelectedAreOfFate(s.fates, Delivered(UdpChannel), i);
    }
    if i in s.tcpLog {
      SelectedAreOfFate(s.fates, Delivered(TcpChannel), i);
    }
    if i < |s.fates| {
      assert Explains(c, s.submitted[i], s.fates[i]);
    }
  }

  lemma SelectedAreOfFate(fates: seq<Fate>, f: Fate, i: nat)
    requires i in Select(fates, f)
    ensures i < |fates| && fates[i] == f
  {
    var k :| 0 <= k < |Select(fates, f)| && Select(fates, f)[k] == i;
    SelectedHaveFate(fates, f, k);
  }

  // What sending from the slot does to the packet in it: dropped exactly if its protocol is switched
  // off, kept exactly while the channel is full, else delivered to the end of its channel or lost with it.
  lemma SendingExactly(c: Config, calls: seq<Call>, a: Answer)
    requires Run(c, calls).slot.Some?
    ensures var s := Run(c, calls); var i := s.slot.value.0; var (reply, d) := SendSlot(c, s, a);
      && i < |s.submitted| && c.parse(s.submitted[i]).Some?
      && var p := c.parse(s.submitted[i]).value;
         && (d.fates[i] == Dropped(Disabled) <==> !Enabled(c, p))
         && (reply == Pending <==> Enabled(c, p) && a == Full)
         && (reply == Pending ==> d == s)
         && (reply == Error <==> Enabled(c, p) && a == Closed)
         && (reply != Pending ==> d.slot == None)
         && (Enabled(c, p) && a == Accepts && p == Udp ==> d.udpLog == s.udpLog + [i] && d.tcpLog == s.tcpLog)
         && (Enabled(c, p) && a == Accepts && p != Udp ==> d.tcpLog == s.tcpLog + [i] && d.udpLog == s.udpLog)
         && (a != Accepts || !Enabled(c, p) ==> d.tcpLog == s.tcpLog && d.udpLog == s.udpLog)
  {
    RunInv(c, calls);
    FatesExplained(c, calls);
    var s := Run(c, calls);
    assert Explains(c, s.submitted[s.slot.value.0], s.fates[s.slot.value.0]);
  }

  // What a submission answers: an error exactly for bytes that are no packet; the slot is taken
  // exactly by a packet worth keeping.
  lemma SubmittingExactly(c: Config, calls: seq<Call>, item: seq<byte>)
    ensures var s := Run(c, calls); var (reply, d) := Submit(c, s, item);
      && (reply == Error <==> item != [] && c.parse(item) == None) && (reply != Error ==> reply == Ready)
      && (Kept(c, item) ==> d.slot == Some((|s.submitted|, c.parse(item).value)))
      && (!Kept(c, item) ==> d.slot == s.slot)
      && d.submitted == s.submitted + [item] && d.tcpLog == s.tcpLog && d.udpLog == s.udpLog
  {
    RunInv(c, calls);
  }

  // Readiness is answered exactly with an empty slot.
  lemma ReadyExactly(c: Config, calls: seq<Call>, a: Answer)
    ensures var s := Run(c, calls); var (reply, d) := ReadySlot(c, s, a);
      && (reply == Ready ==> d.slot == None) && (d.readied <==> reply == Ready)
      && (s.slot == None ==> reply == Ready && d == s.(readied := true))
      && (s.slot.Some? ==> reply == SendSlot(c, s, a).0 && d == SendSlot(c, s, a).1.(readied := d.readied))
  {
    RunInv(c, calls);
  }

  // ---- The slot is overwritten exactly when ... ----

  predicate SomeOverwritten(fates: seq<Fate>)
  {
    exists i :: 0 <= i < |fates| && fates[i] == Dropped(Overwritten)
  }

  // A packet that is kept is submitted while the slot is taken.
  predicate Collides(c: Config, s: Sink, call: Call)
  {
    call.StartSend? && s.slot.Some? && Classify(c, call.item).0 == InSlot
  }

  predicate CollidesAt(c: Config, calls: seq<Call>, i: nat)
    requires i < |calls|
  {
    Collides(c, Run(c, calls[..i]), calls[i])
  }

  predicate EverCollides(c: Config, calls: seq<Call>)
  {
    exists i :: 0 <= i < |calls| && CollidesAt(c, calls, i)
  }

  lemma StepOverwrites(c: Config, s: Sink, call: Call)
    requires Inv(s)
    ensures SomeOverwritten(Perform(c, s, call).fates) <==> SomeOverwritten(s.fates) || Collides(c, s, call)
  {
    var d := Perform(c, s, call);
    assert forall i :: 0 <= i < |s.fates| && s.fates[i] == Dropped(Overwritten) ==> d.fates[i] == Dropped(Overwritten);
    if Collides(c, s, call) {
      assert d.fates[s.slot.value.0] == Dropped(Overwritten);
    } else {
      assert forall i :: 0 <= i < |d.fates| && d.fates[i] == Dropped(Overwritten) ==>
        i < |s.fates| && s.fates[i] == Dropped(Overwritten);
    }
  }

  lemma EverCollidesSnoc(c: Config, calls: seq<Call>, call: Call)
    ensures EverCollides(c, calls + [call]) <==> EverCollides(c, calls) || Collides(c, Run(c, calls), call)
  {
    var longer := calls + [call];
    assert longer[..|calls|] == calls;
    assert CollidesAt(c, longer, |calls|) == Collides(c, Run(c, calls), call);
    forall i | 0 <= i < |calls|
      ensures CollidesAt(c, calls, i) == CollidesAt(c, longer, i)
    {
      assert longer[..i] == calls[..i] && longer[i] == calls[i];
    }
  }

  // A packet is overwritten in a run exactly if some packet was submitted, and kept, over a taken slot.
  lemma {:induction false} OverwriteExactly(c: Config, calls: seq<Call>)
    ensures SomeOverwritten(Run(c, calls).fates) <==> EverCollides(c, calls)
  {
    if calls != [] {
      var init, call := calls[..|calls| - 1], calls[|calls| - 1];
      assert calls == init + [call];
      OverwriteExactly(c, init);
      RunInv(c, init);
      StepOverwrites(c, Run(c, init), call);
      EverCollidesSnoc(c, init, call);
    }
  }

  // Two packets submitted in a row, without asking in between: the first is gone.
  lemma SecondSubmissionOverwrites()
    ensures var c := Config(_ => Some(Tcp), _ => true, true, true, true);
      var s := Run(c, [StartSend([1]), StartSend([2])]);
      s.fates == [Dropped(Overwritten), InSlot] && s.slot == Some((1, Tcp)) && s.tcpLog == []
  {
    var c := Config(_ => Some(Tcp), _ => true, true, true, true);
    var calls := [StartSend([1]), StartSend([2])];
    assert calls[..1] == [StartSend([1])] && calls[..1][..0] == [];
    assert Run(c, calls[..1]).fates == [InSlot];
  }

  // The sink contract: a packet is submitted only after `poll_ready` said yes.
  predicate KeepsContract(c: Config, calls: seq<Call>)
  {
    forall i :: 0 <= i < |calls| && calls[i].StartSend? ==> Run(c, calls[..i]).readied
  }

  // Under it nothing is ever overwritten.
  lemma ContractPreventsOverwriting(c: Config, calls: seq<Call>)
    requires KeepsContract(c, calls)
    ensures !SomeOverwritten(Run(c, calls).fates)
  {
    OverwriteExactly(c, calls);
    forall i | 0 <= i < |calls|
      ensures !CollidesAt(c, calls, i)
    {
      RunInv(c, calls[..i]);
    }
  }

  function Items(s: Sink, log: seq<nat>): seq<seq<byte>>
    requires forall k :: 0 <= k < |log| ==> log[k] < |s.submitted|
  {
    seq(|log|, k requires 0 <= k < |log| => s.submitted[log[k]])
  }

  // The stack itself: the slot is taken, put back and replaced; `tcpSent` and `udpSent` are what the
  // channels received. The ghost history is the sink specified above.
  class Stack {
    const config: Config
    var sinkBuf: Option<(seq<byte>, Protocol)>
    var tcpSent: seq<seq<byte>>
    var udpSent: seq<seq<byte>>
    ghost var history: Sink

    constructor (c: Config)
      ensures Valid() && config == c && history == EMPTY && tcpSent == udpSent == []
    {
      config, sinkBuf, tcpSent, udpSent, history := c, None, [], [], EMPTY;
      new;
      assert Select(EMPTY.fates, InSlot) == [];
    }

    ghost predicate Valid()
      reads this
    {
      && Inv(history)
      && (forall k :: 0 <= k < |history.tcpLog| ==> history.tcpLog[k] < |history.submitted|)
      && (forall k :: 0 <= k < |history.udpLog| ==> history.udpLog[k] < |history.submitted|)
      && tcpSent == Items(history, history.tcpLog) && udpSent == Items(history, history.udpLog)
      && sinkBuf == (if history.slot == None then None
                     else Some((history.submitted[history.slot.value.0], history.slot.value.1)))
    }

    method PollSend(answer: Answer) returns (reply: Reply)
      requires Valid()
      modifies this
      ensures Valid() && (reply, history) == SendSlot(config, old(history), answer)
    {
      SendSlotKeeps(config, history, answer);
      history := SendSlot(config, history, answer).1;
      if sinkBuf == None {
        return Ready;
      }
      var (item, protocol) := sinkBuf.value;
      sinkBuf := None;
      if !HasChannel(config, protocol) {
        return Ready;
      }
      match answer {
        case Full =>
          sinkBuf := Some((item, protocol));
          reply := Pending;
        case Closed =>
          reply := Error;
        case Accepts =>
          if ChannelOf(protocol) == UdpChannel {
            udpSent := udpSent + [item];
          } else {
            tcpSent := tcpSent + [item];
          }
          reply := Ready;
      }
    }

    method PollReady(answer: Answer) returns (reply: Reply)
      requires Valid()
      modifies this
      ensures Valid() && (reply, history) == ReadySlot(config, old(history), answer)
    {
      reply := Ready;
      if sinkBuf.Some? {
        reply := PollSend(answer);
      }
      history := history.(readied := reply == Ready);
    }

    method StartSend(item: seq<byte>) returns (reply: Reply)
      requires Valid()
      modifies this
      ensures Valid() && (reply, history) == Submit(config, old(history), item)
    {
      SubmitKeeps(config, history, item);
      assert Items(Submit(config, history, item).1, history.tcpLog) == tcpSent;
      assert Items(Submit(config, history, item).1, history.udpLog) == udpSent;
      history := Submit(config, history, item).1;
      if item == [] {
        return Ready;
      }
      var parsed := config.parse(item);
      if parsed.None? {
        return Error;
      }
      if config.allowed(item) && parsed.value != Other {
        sinkBuf := Some((item, parsed.value));
      }
      return Ready;
    }
  }
}
