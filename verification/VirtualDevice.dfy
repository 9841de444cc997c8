// The virtual network device between the packet handler and the TCP/IP stack.
module VirtualDevice {
  import opened Bytes

  type Packet = seq<byte>

  // What became of a frame taken from the ingress queue.
  datatype Fate = Consumed(frame: Packet) | Discarded(frame: Packet)

  datatype Call = Ingress(frame: Packet) | Receive(reply: Option<Packet>) | Transmit(packet: Packet) | EgressTaken

  datatype State = State(ingress: seq<Packet>, avail: bool, egress: seq<Packet>, capacity: nat, fates: seq<Fate>)

  // `Receive` needs a free egress slot for the reply token before it hands the frame out; the slot is
  // given back when no reply is sent. The frame is taken off its queue before the slot is asked for.
  function Next(s: State, c: Call): State
  {
    match c
    case Ingress(frame) => s.(ingress := s.ingress + [frame], avail := true)
    case Receive(reply) =>
      if s.ingress == [] then s.(avail := false)
      else if |s.egress| >= s.capacity then
        s.(ingress := s.ingress[1..], avail := false, fates := s.fates + [Discarded(s.ingress[0])])
      else
        s.(ingress := s.ingress[1..], fates := s.fates + [Consumed(s.ingress[0])],
           egress := if reply.Some? then s.egress + [reply.value] else s.egress)
    case Transmit(packet) => if |s.egress| >= s.capacity then s else s.(egress := s.egress + [packet])
    case EgressTaken => if s.egress == [] then s else s.(egress := s.egress[1..])
  }

  class Device {
    var inBuf: seq<Packet>
    var avail: bool
    var outBuf: seq<Packet>
    const capacity: nat
    ghost var fates: seq<Fate>

    ghost function View(): State
      reads this
    {
      State(inBuf, avail, outBuf, capacity, fates)
    }

    constructor (capacity: nat)
      ensures View() == State([], false, [], capacity, [])
    {
      this.capacity := capacity;
      inBuf, avail, outBuf, fates := [], false, [], [];
    }

    method Push(frame: Packet)
      modifies this
      ensures View() == Next(old(View()), Ingress(frame))
      ensures inBuf == old(inBuf) + [frame] && avail && outBuf == old(outBuf)
    {
      inBuf := inBuf + [frame];
      avail := true;
    }

    // `reply` is what the stack sends through the token that comes with the frame.
    method Poll(reply: Option<Packet>) returns (frame: Option<Packet>)
      modifies this
      ensures View() == Next(old(View()), Receive(reply))
      ensures frame.Some? <==> old(inBuf) != [] && |old(outBuf)| < capacity
      ensures frame.Some? ==> frame.value == old(inBuf)[0]
      ensures inBuf == if old(inBuf) == [] then [] else old(inBuf)[1..]
      ensures avail == (old(avail) && frame.Some?)
      ensures outBuf == if frame.Some? && reply.Some? then old(outBuf) + [reply.value] else old(outBuf)
    {
      if inBuf == [] {
        avail := false;
        return None;
      }
      var buffer := inBuf[0];
      inBuf := inBuf[1..];
      if |outBuf| >= capacity {
        avail := false;
        fates := fates + [Discarded(buffer)];
        return None;
      }
      fates := fates + [Consumed(buffer)];
      if reply.Some? {
        outBuf := outBuf + [reply.value];
      }
      frame := Some(buffer);
    }

    method Send(packet: Packet) returns (sent: bool)
      modifies this
      ensures View() == Next(old(View()), Transmit(packet)) && sent == (|old(outBuf)| < capacity)
      ensures outBuf == if sent then old(outBuf) + [packet] else old(outBuf)
    {
      sent := |outBuf| < capacity;
      if sent {
        outBuf := outBuf + [packet];
      }
    }
  }

  // ---- Runs ----

  function Run(capacity: nat, cs: seq<Call>): State
  {
    if cs == [] then State([], false, [], capacity, [])
    else Next(Run(capacity, cs[..|cs| - 1]), cs[|cs| - 1])
  }

  function Arrived(cs: seq<Call>): seq<Packet>
  {
    if cs == [] then []
    else
      var before := Arrived(cs[..|cs| - 1]);
      match cs[|cs| - 1] case Ingress(frame) => before + [frame] case _ => before
  }

  function Frames(fates: seq<Fate>): seq<Packet>
  {
    seq(|fates|, i requires 0 <= i < |fates| => fates[i].frame)
  }

  // The run polled a waiting frame while every egress slot was taken.
  predicate PolledWhileFull(capacity: nat, cs: seq<Call>, i: nat)
    requires i < |cs|
  {
    var s := Run(capacity, cs[..i]);
    cs[i].Receive? && s.ingress != [] && |s.egress| >= capacity
  }

  // Every frame is consumed, discarded or still queued, each once and in the order of arrival, and the
  // egress queue never outgrows its bound.
  lemma {:induction false} EveryFrameAccountedFor(capacity: nat, cs: seq<Call>)
    ensures var s := Run(capacity, cs);
      Frames(s.fates) + s.ingress == Arrived(cs) && s.capacity == capacity && |s.egress| <= capacity
  {
    if cs != [] {
      var before, c := Run(capacity, cs[..|cs| - 1]), cs[|cs| - 1];
      EveryFrameAccountedFor(capacity, cs[..|cs| - 1]);
      if c.Receive? && before.ingress != [] {
        var s := Next(before, c);
        assert s.fates[..|before.fates|] == before.fates;
        assert Frames(s.fates) == Frames(before.fates) + [before.ingress[0]];
        assert before.ingress == [before.ingress[0]] + before.ingress[1..];
      }
    }
  }

  // A frame is lost exactly when one is polled while the egress queue is full.
  lemma {:induction false} LossExactly(capacity: nat, cs: seq<Call>)
    ensures (exists f <- Run(capacity, cs).fates :: f.Discarded?) <==>
            (exists i :: 0 <= i < |cs| && PolledWhileFull(capacity, cs, i))
  {
    if cs != [] {
      var last := |cs| - 1;
      var init := cs[..last];
      var before, s := Run(capacity, init), Run(capacity, cs);
      LossExactly(capacity, init);
      EveryFrameAccountedFor(capacity, init);
      forall i | 0 <= i < last
        ensures PolledWhileFull(capacity, init, i) == PolledWhileFull(capacity, cs, i)
      {
        assert init[..i] == cs[..i] && init[i] == cs[i];
      }
      assert before.fates <= s.fates;
      if PolledWhileFull(capacity, cs, last) {
        assert s.fates[|before.fates|].Discarded?;
      }
      if exists f <- before.fates :: f.Discarded? {
        var f :| f in before.fates && f.Discarded?;
        assert f in s.fates;
      }
      if exists f <- s.fates :: f.Discarded? {
        var f :| f in s.fates && f.Discarded?;
        assert f in before.fates || PolledWhileFull(capacity, cs, last);
      }
    }
  }

  // A device without egress slots loses the first frame it is polled for.
  lemma FullEgressLosesFrame()
    ensures var cs := [Ingress([1]), Receive(None)];
      PolledWhileFull(0, cs, 1) && Run(0, cs).fates == [Discarded([1])] && Run(0, cs).ingress == []
  {
    var cs := [Ingress([1]), Receive(None)];
    assert cs[..1] == [Ingress([1])] && cs[..1][..0] == [];
    assert Run(0, cs[..1]) == State([[1]], true, [], 0, []);
  }
}
