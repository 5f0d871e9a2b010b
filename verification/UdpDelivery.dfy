/** What the UDP sender emits for each datagram, and what the forwarder makes of it. */
module UdpDelivery {
  import opened Basics
  import opened Batches
  import opened Wire
  import opened Sender
  import opened UdpForward

  const UDP_RESEND: nat := 2

  /** The size of the buffer the sender receives datagrams into. */
  const LISTEN_BUFFER: nat := 65535

  type UdpPayload = data: Bytes | |data| <= LISTEN_BUFFER witness []

  /** A datagram given to the sender, with the id the sender makes up for it. */
  datatype Datagram = Datagram(id: Field, data: UdpPayload)

  function FragmentCount(d: Datagram): nat {
    TotalChunks(|d.data|)
  }

  function SizeField(d: Datagram): Field {
    ParityFieldLength(|d.data|);
    PaddedDecimal(|d.data|, 32)
  }

  function Fragment(d: Datagram, j: nat): Packet
    requires j < FragmentCount(d)
  {
    Packet(UDP, j, SizeField(d), d.id, Chunk(d.data, j))
  }

  /** One copy of the datagram. */
  function Fragments(d: Datagram): seq<Packet> {
    seq(FragmentCount(d), j requires 0 <= j < FragmentCount(d) => Fragment(d, j))
  }

  /** The first eight bytes of the id are all that the forwarder compares. */
  function ShortId(d: Datagram): Bytes {
    d.id[..8]
  }

  // ---- The sender ----

  function FragmentDatagrams(d: Datagram, n: nat): seq<Bytes>
    requires n <= FragmentCount(d)
  {
    seq(n, j requires 0 <= j < n => EncodePacket(Fragment(d, j)))
  }

  function Copies(d: Datagram, n: nat): seq<Bytes> {
    if n == 0 then [] else Copies(d, n - 1) + FragmentDatagrams(d, FragmentCount(d))
  }

  /** One copy of a datagram: every fragment, whatever the socket refuses. */
  method SendCopy(d: Datagram, dataLength: Field, link: Link, packetBuf: PacketBuffer)
    requires link.Valid() && dataLength == SizeField(d)
    modifies link, packetBuf
    ensures link.Valid() && link.tried == old(link.tried) + FragmentDatagrams(d, FragmentCount(d))
  {
    hide EncodePacket, SizeField, Encode;
    var count: nat, from: nat := 0, 0;
    while from < |d.data|
      invariant count <= FragmentCount(d) && from == Min(count * CHUNK_SIZE, |d.data|)
      invariant from == |d.data| ==> count == FragmentCount(d)
      invariant link.Valid() && link.tried == old(link.tried) + FragmentDatagrams(d, count)
    {
      var chunk := d.data[from..Min(from + CHUNK_SIZE, |d.data|)];
      packetBuf.EncodeInto(UDP, count, dataLength, d.id, chunk);
      FragmentSent(d, count);
      var ok := link.Send(packetBuf.bytes);
      from := from + |chunk|;
      count := count + 1;
    }
  }

  /** The sender's loop body for one datagram: all of it twice. */
  method SendDatagram(d: Datagram, link: Link, packetBuf: PacketBuffer)
    requires link.Valid()
    modifies link, packetBuf
    ensures link.Valid()
    ensures link.tried == old(link.tried) + Copies(d, UDP_RESEND)
  {
    hide FragmentDatagrams, FragmentCount;
    ParityFieldLength(|d.data|);
    var dataLength := PaddedDecimal(|d.data|, 32);
    for copy := 0 to UDP_RESEND
      invariant link.Valid() && link.tried == old(link.tried) + Copies(d, copy)
    {
      SendCopy(d, dataLength, link, packetBuf);
    }
  }

  lemma FragmentSent(d: Datagram, j: nat)
    requires j * CHUNK_SIZE < |d.data|
    ensures j < FragmentCount(d)
    ensures Encode(UDP, j, SizeField(d), d.id, d.data[j * CHUNK_SIZE..Min(j * CHUNK_SIZE + CHUNK_SIZE, |d.data|)])
              == EncodePacket(Fragment(d, j))
    ensures FragmentDatagrams(d, j + 1) == FragmentDatagrams(d, j) + [EncodePacket(Fragment(d, j))]
  {
    hide Encode, SizeField;
  }

  /** Every fragment survives the wire. */
  lemma FragmentSurvives(d: Datagram, j: nat)
    requires j < FragmentCount(d)
    ensures Decode(EncodePacket(Fragment(d, j))) == Some(Fragment(d, j))
  {
    hide Decode, EncodePacket, SizeField;
    RoundTripFits(Fragment(d, j));
  }

  // ---- Integrity ----

  /** The packet is a fragment of the datagram. */
  ghost predicate IsFragment(p: Packet, d: Datagram) {
    exists j: nat :: j < FragmentCount(d) && p == Fragment(d, j)
  }

  /** If it is of this datagram, the flow in flight is a proper prefix of it: a whole number of full chunks. */
  predicate Prefix(f: Flow, d: Datagram) {
    f.id == Some(ShortId(d)) ==>
      && f.expectedSize == |d.data|
      && (f.previousCount + 1) * CHUNK_SIZE < |d.data|
      && f.packet == d.data[..(f.previousCount + 1) * CHUNK_SIZE]
  }

  lemma FragmentFields(d: Datagram, j: nat)
    requires j < FragmentCount(d)
    ensures DeclaredSize(Fragment(d, j)) == Some(|d.data|) && IdOf(Fragment(d, j)) == ShortId(d)
  {
    PaddedParses(|d.data|, 32, U64_MAX);
  }

  /** A prefix and the next chunk make the next prefix, or the whole datagram. */
  lemma NextPrefix(d: Datagram, j: nat)
    requires j < FragmentCount(d)
    ensures j * CHUNK_SIZE < |d.data|
    ensures d.data[..j * CHUNK_SIZE] + Chunk(d.data, j) == d.data[..Min((j + 1) * CHUNK_SIZE, |d.data|)]
    ensures j + 1 == FragmentCount(d) <==> (j + 1) * CHUNK_SIZE >= |d.data|
  {
  }

  /** One fragment of the datagram: what is sent is the datagram, what is kept is a prefix of it. */
  lemma FragmentIsSafe(f: Flow, a: Incoming, d: Datagram, j: nat)
    requires Prefix(f, d) && j < FragmentCount(d) && a.p == Fragment(d, j)
    ensures var (g, out) := Step(f, a);
            Prefix(g, d) && (out.Some? ==> out.value == d.data)
  {
    hide DeclaredSize, IdOf, ShortId, SizeField, FragmentCount, Chunk;
    FragmentFields(d, j);
    NextPrefix(d, j);
    NextPrefix(d, 0);
  }

  /** Packets with other ids never put this datagram's id in flight. */
  lemma OtherIdIsSafe(f: Flow, a: Incoming, d: Datagram)
    requires Prefix(f, d) && IdOf(a.p) != ShortId(d)
    ensures Prefix(Step(f, a).0, d)
  {
    hide DeclaredSize;
  }

  /** Every arrival that bears the datagram's id is one of its fragments; nothing is said of the others. */
  ghost predicate OnlyGenuine(arrivals: seq<Incoming>, d: Datagram) {
    forall k :: 0 <= k < |arrivals| && IdOf(arrivals[k].p) == ShortId(d) ==> IsFragment(arrivals[k].p, d)
  }

  lemma {:induction false} PrefixKept(f: Flow, arrivals: seq<Incoming>, d: Datagram)
    requires Prefix(f, d) && OnlyGenuine(arrivals, d)
    ensures Prefix(Run(f, arrivals).flow, d)
    decreases |arrivals|
  {
    hide Step, IdOf, Prefix, Fragment;
    if arrivals != [] {
      var n := |arrivals| - 1;
      var before := Run(f, arrivals[..n]).flow;
      PrefixKept(f, arrivals[..n], d);
      if IdOf(arrivals[n].p) == ShortId(d) {
        var j: nat :| j < FragmentCount(d) && arrivals[n].p == Fragment(d, j);
        FragmentIsSafe(before, arrivals[n], d, j);
      } else {
        OtherIdIsSafe(before, arrivals[n], d);
      }
    }
  }

  /**
    Integrity. As long as every packet with a datagram's id is one of its fragments, then however fragments
    are lost, repeated, reordered and mixed with any other packets, whatever a packet with this id causes to
    be forwarded is the whole datagram.
  */
  lemma OnlyThisDatagram(start: nat, arrivals: seq<Incoming>, a: Incoming, d: Datagram)
    requires OnlyGenuine(arrivals, d) && IsFragment(a.p, d)
    ensures var out := Step(Run(NoFlow(start), arrivals).flow, a).1;
            out.Some? ==> out.value == d.data
  {
    hide Step, Fragment, ShortId;
    PrefixKept(NoFlow(start), arrivals, d);
    var j: nat :| j < FragmentCount(d) && a.p == Fragment(d, j);
    FragmentIsSafe(Run(NoFlow(start), arrivals).flow, a, d, j);
  }

  /** Different datagrams, told apart by the first eight bytes of their ids. */
  predicate DistinctIds(ds: seq<Datagram>) {
    forall i, j :: 0 <= i < j < |ds| ==> ShortId(ds[i]) != ShortId(ds[j])
  }

  ghost predicate AllGenuine(arrivals: seq<Incoming>, ds: seq<Datagram>) {
    forall k :: 0 <= k < |arrivals| ==> exists i :: 0 <= i < |ds| && IsFragment(arrivals[k].p, ds[i])
  }

  lemma FragmentHasId(p: Packet, d: Datagram)
    requires IsFragment(p, d)
    ensures IdOf(p) == ShortId(d)
  {
  }

  lemma GenuineForEach(arrivals: seq<Incoming>, ds: seq<Datagram>, i: nat)
    requires DistinctIds(ds) && AllGenuine(arrivals, ds) && i < |ds|
    ensures OnlyGenuine(arrivals, ds[i])
  {
    hide IsFragment, IdOf, ShortId;
    forall k | 0 <= k < |arrivals| && IdOf(arrivals[k].p) == ShortId(ds[i]) ensures IsFragment(arrivals[k].p, ds[i]) {
      var j :| 0 <= j < |ds| && IsFragment(arrivals[k].p, ds[j]);
      FragmentHasId(arrivals[k].p, ds[j]);
    }
  }

  /** For genuine traffic: everything forwarded is one of the datagrams the sender was given. */
  lemma {:induction false} OnlyGivenDatagrams(start: nat, arrivals: seq<Incoming>, ds: seq<Datagram>)
    requires DistinctIds(ds) && AllGenuine(arrivals, ds)
    ensures forall bytes :: bytes in Run(NoFlow(start), arrivals).sent ==>
              exists i :: 0 <= i < |ds| && bytes == ds[i].data
    decreases |arrivals|
  {
    hide Step, IsFragment, DistinctIds, OnlyGenuine;
    if arrivals != [] {
      var n := |arrivals| - 1;
      var before, a := arrivals[..n], arrivals[n];
      OnlyGivenDatagrams(start, before, ds);
      var i :| 0 <= i < |ds| && IsFragment(a.p, ds[i]);
      GenuineForEach(before, ds, i);
      OnlyThisDatagram(start, before, a, ds[i]);
    }
  }

  // ---- Delivery ----

  /** The forwarder may take up the datagram: nothing in flight, this very datagram, or something stale. */
  predicate Ready(f: Flow, d: Datagram, a: Incoming) {
    f.id.None? || f.id.value == ShortId(d) || Stale(f, a)
  }

  predicate Carry(arrivals: seq<Incoming>, packets: seq<Packet>) {
    |arrivals| == |packets| && forall k :: 0 <= k < |arrivals| ==> arrivals[k].p == packets[k]
  }

  /** The first fragment of a ready datagram always starts it afresh. */
  lemma FirstStarts(f: Flow, a: Incoming, d: Datagram)
    requires FragmentCount(d) > 0 && a.p == Fragment(d, 0) && Ready(f, d, a)
    ensures var g := Flow(Some(ShortId(d)), d.data[..Min(CHUNK_SIZE, |d.data|)], 0, |d.data|, a.stamped);
            Step(f, a) == Completed(g)
  {
    hide DeclaredSize, IdOf, SizeField;
    FragmentFields(d, 0);
  }

  lemma NextContinues(f: Flow, a: Incoming, d: Datagram, j: nat)
    requires 0 < j < FragmentCount(d) && a.p == Fragment(d, j)
    requires f.id == Some(ShortId(d)) && Prefix(f, d) && f.previousCount + 1 == j
    ensures var g := Flow(Some(ShortId(d)), d.data[..Min((j + 1) * CHUNK_SIZE, |d.data|)], j, |d.data|, a.stamped);
            Step(f, a) == Completed(g)
  {
    hide DeclaredSize, IdOf, SizeField, FragmentCount, Chunk, Completed;
    FragmentFields(d, j);
    NextPrefix(d, j);
    ChunkFits(d, j);
  }

  lemma ChunkFits(d: Datagram, j: nat)
    requires j < FragmentCount(d)
    ensures 1 <= |Chunk(d.data, j)| <= |d.data| - j * CHUNK_SIZE
  {
  }

  /** Where a copy stands after its first `j` fragments. */
  predicate Halfway(r: Forwarder, d: Datagram, j: nat) {
    if j == FragmentCount(d) then r.flow == NoFlow(r.flow.lastActivity) && r.sent == [d.data]
    else r.flow.id == Some(ShortId(d)) && Prefix(r.flow, d) && r.flow.previousCount + 1 == j && r.sent == []
  }

  lemma CompletedHalfway(d: Datagram, j: nat, now: nat)
    requires 0 < j <= FragmentCount(d)
    ensures var g := Flow(Some(ShortId(d)), d.data[..Min(j * CHUNK_SIZE, |d.data|)], j - 1, |d.data|, now);
            Halfway(Forwarder(Completed(g).0, Sent(Completed(g).1)), d, j)
  {
    hide FragmentCount;
    NextPrefix(d, j - 1);
    assert d.data[..|d.data|] == d.data;
  }

  lemma {:induction false} CopyProgress(f: Flow, d: Datagram, arrivals: seq<Incoming>, j: nat)
    requires Carry(arrivals, Fragments(d)) && 0 < j <= |arrivals| && Ready(f, d, arrivals[0])
    ensures Halfway(Run(f, arrivals[..j]), d, j)
  {
    hide Fragment, Ready, Step, FragmentCount, Completed, Halfway;
    var before, a := arrivals[..j - 1], arrivals[j - 1];
    assert arrivals[..j] == before + [a];
    RunLast(f, before, a);
    CompletedHalfway(d, j, a.stamped);
    assert a.p == Fragment(d, j - 1);
    if j == 1 {
      assert before == [];
      FirstStarts(f, a, d);
    } else {
      CopyProgress(f, d, arrivals, j - 1);
      HalfwayContinues(Run(f, before), a, d, j - 1);
    }
    assert [] + Sent(Step(Run(f, before).flow, a).1) == Sent(Step(Run(f, before).flow, a).1);
  }

  lemma HalfwayContinues(r: Forwarder, a: Incoming, d: Datagram, j: nat)
    requires 0 < j < FragmentCount(d) && a.p == Fragment(d, j) && Halfway(r, d, j)
    ensures var g := Flow(Some(ShortId(d)), d.data[..Min((j + 1) * CHUNK_SIZE, |d.data|)], j, |d.data|, a.stamped);
            Step(r.flow, a) == Completed(g) && r.sent == []
  {
    NextContinues(r.flow, a, d, j);
    hide Step, Prefix, FragmentCount, Fragment, Completed;
  }

  /** An intact copy is forwarded exactly once, and leaves the forwarder idle. */
  lemma CopyDelivers(f: Flow, d: Datagram, arrivals: seq<Incoming>)
    requires d.data != [] && Carry(arrivals, Fragments(d)) && Ready(f, d, arrivals[0])
    ensures var r := Run(f, arrivals); r.sent == [d.data] && r.flow == NoFlow(r.flow.lastActivity)
  {
    CopyProgress(f, d, arrivals, |arrivals|);
    assert arrivals[..|arrivals|] == arrivals;
    hide Run, Prefix;
  }

  // ---- Lists of datagrams ----

  /** The packets of the datagrams, each sent twice. */
  function AllFragments(ds: seq<Datagram>): seq<Packet> {
    if ds == [] then [] else
      var d := ds[|ds| - 1];
      AllFragments(ds[..|ds| - 1]) + Fragments(d) + Fragments(d)
  }

  /** Each datagram twice; an empty one does not show. */
  function EachTwice(ds: seq<Datagram>): seq<Bytes> {
    if ds == [] then [] else
      var d := ds[|ds| - 1];
      EachTwice(ds[..|ds| - 1]) + if d.data == [] then [] else [d.data, d.data]
  }

  lemma CopyFromIdle(start: nat, d: Datagram, arrivals: seq<Incoming>)
    requires Carry(arrivals, Fragments(d))
    ensures var r := Run(NoFlow(start), arrivals);
            r.sent == (if d.data == [] then [] else [d.data]) && r.flow == NoFlow(r.flow.lastActivity)
  {
    if d.data != [] {
      CopyDelivers(NoFlow(start), d, arrivals);
    }
  }

  /** From an idle forwarder, without loss and in order, every datagram is forwarded exactly twice, in order. */
  lemma {:induction false} EveryDatagramTwice(start: nat, ds: seq<Datagram>, arrivals: seq<Incoming>)
    requires Carry(arrivals, AllFragments(ds))
    ensures var r := Run(NoFlow(start), arrivals); r.sent == EachTwice(ds) && r.flow == NoFlow(r.flow.lastActivity)
    decreases |ds|
  {
    hide Run, Fragments;
    if ds == [] {
      NothingArrives(start);
    } else {
      var n := |ds| - 1;
      var d := ds[n];
      var before, size := |AllFragments(ds[..n])|, |Fragments(d)|;
      var a, b, c := arrivals[..before], arrivals[before..before + size], arrivals[before + size..];
      assert arrivals == (a + b) + c;
      EveryDatagramTwice(start, ds[..n], a);
      RunConcat(NoFlow(start), a, b);
      RunConcat(NoFlow(start), a + b, c);
      CopyFromIdle(Run(NoFlow(start), a).flow.lastActivity, d, b);
      CopyFromIdle(Run(NoFlow(start), a + b).flow.lastActivity, d, c);
    }
  }

  lemma NothingArrives(start: nat)
    ensures Run(NoFlow(start), []) == Forwarder(NoFlow(start), [])
  {
  }

  /** What the sender puts on the wire for the datagrams. */
  function OnWire(ds: seq<Datagram>): seq<Bytes> {
    if ds == [] then [] else OnWire(ds[..|ds| - 1]) + Copies(ds[|ds| - 1], UDP_RESEND)
  }

  ghost predicate DecodesTo(raws: seq<Bytes>, packets: seq<Packet>) {
    |raws| == |packets| && forall k :: 0 <= k < |raws| ==> Decode(raws[k]) == Some(packets[k])
  }

  lemma CopyOnWire(d: Datagram)
    ensures DecodesTo(FragmentDatagrams(d, FragmentCount(d)), Fragments(d))
  {
    hide Decode, EncodePacket, Fragment, FragmentCount;
    forall k | 0 <= k < FragmentCount(d)
      ensures Decode(FragmentDatagrams(d, FragmentCount(d))[k]) == Some(Fragments(d)[k])
    {
      FragmentSurvives(d, k);
    }
  }

  lemma TwoCopies(d: Datagram)
    ensures Copies(d, UDP_RESEND) == FragmentDatagrams(d, FragmentCount(d)) + FragmentDatagrams(d, FragmentCount(d))
  {
    hide FragmentDatagrams, FragmentCount;
    assert Copies(d, 1) == FragmentDatagrams(d, FragmentCount(d));
  }

  lemma DecodesAppend(a: seq<Bytes>, p: seq<Packet>, b: seq<Bytes>, q: seq<Packet>)
    requires DecodesTo(a, p) && DecodesTo(b, q)
    ensures DecodesTo(a + b, p + q)
  {
    hide Decode;
  }

  lemma BothCopiesOnWire(d: Datagram)
    ensures DecodesTo(Copies(d, UDP_RESEND), Fragments(d) + Fragments(d))
  {
    hide *;
    CopyOnWire(d);
    TwoCopies(d);
    var one := FragmentDatagrams(d, FragmentCount(d));
    DecodesAppend(one, Fragments(d), one, Fragments(d));
  }

  lemma {:induction false} OnWireDecodes(ds: seq<Datagram>)
    ensures DecodesTo(OnWire(ds), AllFragments(ds))
  {
    hide Decode, Copies, Fragments;
    if ds != [] {
      var d := ds[|ds| - 1];
      OnWireDecodes(ds[..|ds| - 1]);
      BothCopiesOnWire(d);
      DecodesAppend(OnWire(ds[..|ds| - 1]), AllFragments(ds[..|ds| - 1]),
                    Copies(d, UDP_RESEND), Fragments(d) + Fragments(d));
      assert AllFragments(ds) == AllFragments(ds[..|ds| - 1]) + (Fragments(d) + Fragments(d));
    }
  }

  /**
    Across the diode: whatever datagrams the sender is given, its packets, delivered in order and decoded,
    make an idle forwarder send on every non-empty datagram exactly twice, in order.
  */
  lemma AcrossTheDiode(start: nat, ds: seq<Datagram>, arrivals: seq<Incoming>)
    requires |arrivals| == |OnWire(ds)|
    requires forall k :: 0 <= k < |arrivals| ==> Decode(OnWire(ds)[k]) == Some(arrivals[k].p)
    ensures Run(NoFlow(start), arrivals).sent == EachTwice(ds)
  {
    hide Decode, Run, OnWire, AllFragments, EachTwice;
    OnWireDecodes(ds);
    EveryDatagramTwice(start, ds, arrivals);
  }

  // ---- One copy damaged ----

  /** Some of the datagram's fragments, in order: `indices` says which. */
  ghost predicate InOrderPart(arrivals: seq<Incoming>, indices: seq<nat>, d: Datagram) {
    && |arrivals| == |indices| && Increasing(indices)
    && forall k :: 0 <= k < |indices| ==> indices[k] < FragmentCount(d) && arrivals[k].p == Fragment(d, indices[k])
  }

  /** The forwarder may take up the datagram at any of the arrivals. */
  predicate Takeable(f: Flow, d: Datagram, arrivals: seq<Incoming>) {
    f.id.None? || f.id.value == ShortId(d) || forall k :: 0 <= k < |arrivals| ==> Stale(f, arrivals[k])
  }

  /** During a part: nothing of it taken up yet, or a prefix in flight, or all over after one forward. */
  predicate DuringPart(r: Forwarder, f: Flow, d: Datagram) {
    && Prefix(r.flow, d)
    && (r.sent == [] || (r.sent == [d.data] && r.flow.id.None?))
    && (r.flow == f || r.flow.id.None? || r.flow.id.value == ShortId(d))
  }

  lemma PartStep(r: Forwarder, f: Flow, d: Datagram, a: Incoming, j: nat)
    requires DuringPart(r, f, d) && j < FragmentCount(d) && a.p == Fragment(d, j)
    requires r.sent != [] ==> j > 0
    ensures var (g, out) := Step(r.flow, a); DuringPart(Forwarder(g, r.sent + Sent(out)), f, d)
  {
    hide Prefix, FragmentCount, Fragment, Step;
    FragmentIsSafe(r.flow, a, d, j);
    StepSettles(r.flow, a, d, j);
  }

  lemma StepSettles(f: Flow, a: Incoming, d: Datagram, j: nat)
    requires j < FragmentCount(d) && a.p == Fragment(d, j)
    ensures var (g, out) := Step(f, a);
            && (out.Some? ==> g.id.None?)
            && (g == f || g.id.None? || g.id.value == ShortId(d))
            && (f.id.None? && j > 0 ==> g == f && out.None?)
  {
    hide DeclaredSize, SizeField, FragmentCount, Chunk;
  }

  lemma {:induction false} PartProgress(f: Flow, d: Datagram, arrivals: seq<Incoming>, indices: seq<nat>)
    requires Prefix(f, d) && InOrderPart(arrivals, indices, d)
    ensures DuringPart(Run(f, arrivals), f, d)
    decreases |arrivals|
  {
    hide Prefix, Fragment, FragmentCount, Step, DuringPart;
    if arrivals == [] {
      NothingTaken(f, d);
    } else {
      var n := |arrivals| - 1;
      PartProgress(f, d, arrivals[..n], indices[..n]);
      SentNeedsArrival(f, d, arrivals[..n]);
      PartStep(Run(f, arrivals[..n]), f, d, arrivals[n], indices[n]);
    }
  }

  lemma NothingTaken(f: Flow, d: Datagram)
    requires Prefix(f, d)
    ensures DuringPart(Forwarder(f, []), f, d)
  {
  }

  lemma SentNeedsArrival(f: Flow, d: Datagram, arrivals: seq<Incoming>)
    ensures Run(f, arrivals).sent != [] ==> arrivals != []
  {
  }

  /**
    Redundancy. If one of the two copies of a datagram is intact, then whatever in-order part of the other
    arrives before or after it, an idle forwarder, one already busy with this datagram, or one whose flow has
    gone stale forwards the datagram once or twice, and nothing else.
  */
  lemma OneIntactCopy(f: Flow, d: Datagram, part: seq<Incoming>, indices: seq<nat>, copy: seq<Incoming>)
    requires d.data != [] && Prefix(f, d) && Takeable(f, d, part + copy)
    requires InOrderPart(part, indices, d) && Carry(copy, Fragments(d))
    ensures Run(f, part + copy).sent == [d.data] || Run(f, part + copy).sent == [d.data, d.data]
    ensures Run(f, copy + part).sent == [d.data] || Run(f, copy + part).sent == [d.data, d.data]
  {
    hide Run, Prefix, InOrderPart, FragmentCount, Fragment;
    CopyNotEmpty(d);
    assert (part + copy)[|part|] == copy[0];
    RunConcat(f, part, copy);
    PartProgress(f, d, part, indices);
    CopyDelivers(Run(f, part).flow, d, copy);
    RunConcat(f, copy, part);
    CopyDelivers(f, d, copy);
    IdleIsPrefix(Run(f, copy).flow.lastActivity, d);
    PartProgress(Run(f, copy).flow, d, part, indices);
    assert [d.data] + [] == [] + [d.data] == [d.data];
  }

  lemma CopyNotEmpty(d: Datagram)
    requires d.data != []
    ensures |Fragments(d)| > 0
  {
  }

  lemma IdleIsPrefix(now: nat, d: Datagram)
    ensures Prefix(NoFlow(now), d)
  {
  }

  // ---- Other traffic in between ----

  /** Another fragment of the datagram than its first and fragment `j`. */
  predicate OutOfTurn(d: Datagram, p: Packet, j: nat) {
    exists k: nat | 0 < k < FragmentCount(d) && k != j :: p == Fragment(d, k)
  }

  /**
    The rest of a copy after its first `j` fragments, the last of them accepted at `stamp`, mixed with repeated
    and later fragments of the same datagram and with any packets of other ids; those with count zero come
    before the flow is stale.
   */
  predicate Mixed(d: Datagram, rest: seq<Incoming>, j: nat, stamp: nat)
    decreases |rest|
  {
    if rest == [] then j == FragmentCount(d)
    else
      j < FragmentCount(d) &&
        if rest[0].p == Fragment(d, j) then Mixed(d, rest[1..], j + 1, rest[0].stamped)
        else (OutOfTurn(d, rest[0].p, j) || OtherId(d, rest[0], stamp)) && Mixed(d, rest[1..], j, stamp)
  }

  predicate OtherId(d: Datagram, a: Incoming, stamp: nat) {
    IdOf(a.p) != ShortId(d) && (a.p.count > 0 || a.checked <= stamp + 2_000_000_000)
  }

  /** Neither kind of packet does anything to the flow. */
  lemma MixedInIgnored(f: Flow, a: Incoming, d: Datagram, j: nat)
    requires f.id == Some(ShortId(d)) && f.previousCount + 1 == j
    requires OutOfTurn(d, a.p, j) || OtherId(d, a, f.lastActivity)
    ensures Step(f, a) == (f, None)
  {
    hide DeclaredSize, IdOf, ShortId, FragmentCount, Chunk, SizeField, Completed;
    if OutOfTurn(d, a.p, j) {
      var k: nat :| 0 < k < FragmentCount(d) && k != j && a.p == Fragment(d, k);
      FragmentFields(d, k);
    }
  }

  lemma {:induction false} MixedDelivers(r: Forwarder, d: Datagram, rest: seq<Incoming>, j: nat)
    requires 0 < j <= FragmentCount(d) && Halfway(r, d, j) && Mixed(d, rest, j, r.flow.lastActivity)
    ensures var end := Run(r.flow, rest); r.sent + end.sent == [d.data] && end.flow == NoFlow(end.flow.lastActivity)
    decreases |rest|
  {
    hide Step, Prefix, Fragment, FragmentCount, Completed, ShortId, OutOfTurn, OtherId;
    if rest == [] {
      assert r.sent + [] == r.sent;
    } else {
      var a := rest[0];
      assert rest == [a] + rest[1..];
      RunConcat(r.flow, [a], rest[1..]);
      RunOne(r.flow, a);
      var (g, out) := Step(r.flow, a);
      if a.p == Fragment(d, j) {
        HalfwayContinues(r, a, d, j);
        CompletedHalfway(d, j + 1, a.stamped);
        CompletedStamp(d, j + 1, a.stamped);
        MixedDelivers(Forwarder(g, Sent(out)), d, rest[1..], j + 1);
      } else {
        MixedInIgnored(r.flow, a, d, j);
        MixedDelivers(r, d, rest[1..], j);
        assert [] + Run(r.flow, rest[1..]).sent == Run(r.flow, rest[1..]).sent;
      }
    }
  }

  lemma RunOne(f: Flow, a: Incoming)
    ensures var (g, out) := Step(f, a); Run(f, [a]) == Forwarder(g, Sent(out))
  {
    RunLast(f, [], a);
    assert [] + [a] == [a];
    assert [] + Sent(Step(f, a).1) == Sent(Step(f, a).1);
  }

  lemma CompletedStamp(d: Datagram, j: nat, now: nat)
    requires j > 0
    ensures var g := Flow(Some(ShortId(d)), d.data[..Min(j * CHUNK_SIZE, |d.data|)], j - 1, |d.data|, now);
            Completed(g).0.lastActivity == now
  {
  }

  /**
    No other traffic can stop a datagram once its first fragment is taken up: with any packets of other ids
    and any repeated or out-of-turn fragments of its own in between, it is forwarded exactly once.
  */
  lemma DisturbedCopyDelivers(f: Flow, d: Datagram, first: Incoming, rest: seq<Incoming>)
    requires d.data != [] && first.p == Fragment(d, 0) && Ready(f, d, first) && Mixed(d, rest, 1, first.stamped)
    ensures Run(f, [first] + rest).sent == [d.data]
  {
    hide Run, Mixed, Halfway, Fragment, Completed, Step, Ready;
    RunConcat(f, [first], rest);
    RunOne(f, first);
    FirstStarts(f, first, d);
    CompletedHalfway(d, 1, first.stamped);
    CompletedStamp(d, 1, first.stamped);
    var (g, out) := Step(f, first);
    MixedDelivers(Forwarder(g, Sent(out)), d, rest, 1);
  }

  // ---- Two damaged copies ----

  /** The fragments from `j` on, after a forwarder that has everything before `i`, for `0 < j <= i`. */
  lemma {:induction false} TailIsMixed(d: Datagram, rest: seq<Incoming>, j: nat, i: nat, stamp: nat)
    requires 0 < j <= i < FragmentCount(d) && Carry(rest, Fragments(d)[j..])
    ensures Mixed(d, rest, i, stamp)
    decreases FragmentCount(d) - j
  {
    hide Fragment, FragmentCount, OtherId, OutOfTurn;
    assert rest[0].p == Fragment(d, j);
    assert Fragments(d)[j..][1..] == Fragments(d)[j + 1..];
    if j < i {
      NumbersTell(d, i, j);
      assert OutOfTurn(d, rest[0].p, i) by { IsOutOfTurn(d, j, i); }
      TailIsMixed(d, rest[1..], j + 1, i, stamp);
    } else if i + 1 < FragmentCount(d) {
      TailIsMixed(d, rest[1..], j + 1, i + 1, rest[0].stamped);
    }
  }

  lemma NumbersTell(d: Datagram, i: nat, j: nat)
    requires i < FragmentCount(d) && j < FragmentCount(d) && i != j
    ensures Fragment(d, i) != Fragment(d, j)
  {
  }

  lemma IsOutOfTurn(d: Datagram, k: nat, j: nat)
    requires 0 < k < FragmentCount(d) && k != j
    ensures OutOfTurn(d, Fragment(d, k), j)
  {
  }

  /** The head of a copy, from fragment `j` up to fragment `i`, and then what is left of the other. */
  lemma {:induction false} HeadIsMixed(d: Datagram, head: seq<Incoming>, tail: seq<Incoming>, j: nat, i: nat, m: nat,
                                      stamp: nat)
    requires 0 < j <= i < FragmentCount(d) && 0 < m <= i
    requires Carry(head, Fragments(d)[j..i]) && Carry(tail, Fragments(d)[m..])
    ensures Mixed(d, head + tail, j, stamp)
    decreases i - j
  {
    hide Fragment, FragmentCount, OtherId, OutOfTurn;
    if j == i {
      assert head + tail == tail;
      TailIsMixed(d, tail, m, i, stamp);
    } else {
      assert head[0].p == Fragment(d, j);
      assert (head + tail)[1..] == head[1..] + tail && (head + tail)[0] == head[0];
      assert Fragments(d)[j..i][1..] == Fragments(d)[j + 1..i];
      HeadIsMixed(d, head[1..], tail, j + 1, i, m, head[0].stamped);
    }
  }

  /**
    Two damaged copies make one: if the first copy of a datagram is cut after its first `i` fragments and the
    second has lost its first `m` (at least one, at most `i`), the datagram is forwarded exactly once.
  */
  lemma TwoPartsMakeOne(f: Flow, d: Datagram, head: seq<Incoming>, tail: seq<Incoming>, i: nat, m: nat)
    requires 0 < m <= i < FragmentCount(d) && Carry(head, Fragments(d)[..i]) && Carry(tail, Fragments(d)[m..])
    requires Ready(f, d, head[0])
    ensures Run(f, head + tail).sent == [d.data]
  {
    hide Fragment, FragmentCount, Mixed, Run, Ready;
    assert Fragments(d)[..i][1..] == Fragments(d)[1..i] && head[0].p == Fragment(d, 0);
    HeadIsMixed(d, head[1..], tail, 1, i, m, head[0].stamped);
    assert head + tail == [head[0]] + (head[1..] + tail);
    HasData(d);
    DisturbedCopyDelivers(f, d, head[0], head[1..] + tail);
  }

  lemma HasData(d: Datagram)
    requires FragmentCount(d) > 0
    ensures d.data != []
  {
  }

  // ---- Abandoned flows ----

  /**
    No flow holds the forwarder for good: an intact copy of any datagram whose first fragment comes more than
    two seconds after the last accepted one is forwarded exactly once, whatever is in flight.
  */
  lemma AbandonedFlowIsReleased(f: Flow, d: Datagram, copy: seq<Incoming>)
    requires Valid(f) && d.data != [] && Carry(copy, Fragments(d)) && copy != []
    requires copy[0].checked > f.lastActivity + 2_000_000_000
    ensures Run(f, copy).sent == [d.data]
  {
    CopyDelivers(f, d, copy);
    hide Run, Fragments;
  }
}
