/** The forwarder as the program runs it: one mutable record, changed packet by packet. */
module UdpObjects {
  import opened Basics
  import opened Batches
  import opened UdpForward

  /** The socket to the internal host. */
  class Host {
    var received: seq<Bytes>

    constructor ()
      ensures received == []
    {
      received := [];
    }

    method SendTo(datagram: Bytes)
      modifies this
      ensures received == old(received) + [datagram]
    {
      received := received + [datagram];
    }
  }

  class UdpForwardState {
    var currentId: Option<Bytes>
    var fullPacket: Bytes
    var previousCount: nat
    var expectedSize: nat
    var lastActivity: nat

    function Value(): Flow
      reads this
    {
      Flow(currentId, fullPacket, previousCount, expectedSize, lastActivity)
    }

    constructor (now: nat)
      ensures Value() == NoFlow(now)
    {
      currentId, fullPacket, previousCount, expectedSize, lastActivity := None, [], 0, 0, now;
    }

    method Reset()
      modifies this
      ensures Value() == NoFlow(old(lastActivity))
    {
      currentId := None;
      fullPacket := [];
      previousCount := 0;
      expectedSize := 0;
    }

    /** Only ever called with a complete datagram. */
    method Forward(host: Host)
      requires |fullPacket| == expectedSize
      modifies this, host
      ensures Value() == Completed(old(Value())).0
      ensures host.received == old(host.received) + Sent(Completed(old(Value())).1)
    {
      host.SendTo(fullPacket);
      Reset();
    }

    method HandleFirst(a: Incoming, declaredSize: nat, host: Host)
      requires Valid(Value())
      modifies this, host
      ensures var (flow, out) := FirstFragment(old(Value()), a, declaredSize);
              Value() == flow && host.received == old(host.received) + Sent(out)
    {
      var packet, id := a.p, a.p.dataHash[..8];
      if declaredSize == 0 || declaredSize > UDP_MAX_FORWARD_BYTES {
        return;
      }
      if packet.data == [] || |packet.data| > CHUNK_SIZE || |packet.data| > declaredSize {
        return;
      }
      if currentId.Some? {
        var sameFlow := currentId.value == id;
        var stale := a.checked - lastActivity > UDP_FLOW_TIMEOUT;
        if !sameFlow && !stale {
          return;
        }
      }
      Reset();
      currentId := Some(id);
      expectedSize := declaredSize;
      fullPacket := fullPacket + packet.data;
      assert fullPacket == packet.data;
      lastActivity := a.stamped;
      if |fullPacket| == expectedSize {
        Forward(host);
      }
    }

    method HandleNext(a: Incoming, declaredSize: nat, host: Host)
      requires Valid(Value())
      modifies this, host
      ensures var (flow, out) := NextFragment(old(Value()), a, declaredSize);
              Value() == flow && host.received == old(host.received) + Sent(out)
    {
      var packet := a.p;
      if currentId != Some(packet.dataHash[..8]) || packet.count != previousCount + 1 {
        return;
      }
      if declaredSize != expectedSize {
        return;
      }
      var remaining: nat := expectedSize - |fullPacket|;
      if packet.data == [] || |packet.data| > CHUNK_SIZE || |packet.data| > remaining {
        Reset();
        return;
      }
      fullPacket := fullPacket + packet.data;
      previousCount := packet.count;
      lastActivity := a.stamped;
      if |fullPacket| == expectedSize {
        Forward(host);
      }
    }

    /** One packet from the channel. */
    method Handle(a: Incoming, host: Host)
      requires Valid(Value())
      modifies this, host
      ensures var (flow, out) := Step(old(Value()), a);
              Value() == flow && host.received == old(host.received) + Sent(out)
    {
      hide FirstFragment, NextFragment, Valid, DeclaredSize;
      var declaredSize := DeclaredSize(a.p);
      if declaredSize.None? {
        return;
      }
      if a.p.count == 0 {
        HandleFirst(a, declaredSize.value, host);
      } else {
        HandleNext(a, declaredSize.value, host);
      }
    }
  }

  /** The loop over everything that comes through the channel. */
  method ForwardUdpPackets(start: nat, arrivals: seq<Incoming>, host: Host) returns (fwd: UdpForwardState)
    modifies host
    ensures fresh(fwd) && fwd.Value() == Run(NoFlow(start), arrivals).flow
    ensures host.received == old(host.received) + Run(NoFlow(start), arrivals).sent
  {
    hide Step, Valid, Sent;
    fwd := new UdpForwardState(start);
    FreshIsValid(start);
    for i := 0 to |arrivals|
      invariant fresh(fwd) && fwd.Value() == Run(NoFlow(start), arrivals[..i]).flow && Valid(fwd.Value())
      invariant host.received == old(host.received) + Run(NoFlow(start), arrivals[..i]).sent
    {
      RunLast(NoFlow(start), arrivals[..i], arrivals[i]);
      assert arrivals[..i] + [arrivals[i]] == arrivals[..i + 1];
      StepKeeps(fwd.Value(), arrivals[i]);
      fwd.Handle(arrivals[i], host);
    }
    assert arrivals[..|arrivals|] == arrivals;
  }
}
