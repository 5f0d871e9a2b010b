/** The sender's own output, carried without loss, is a good delivery: what goes in comes out. */
module EndToEnd {
  import opened Basics
  import opened Batches
  import opened Wire
  import opened Erasure
  import opened Receiver
  import opened Protocol
  import opened Tracking
  import opened Transfer
  import opened Exactness
  import opened Publication
  import opened Recovery
  import opened Sender

  /** What is asked of the encoder: at most a hundred shards, of the right size; none if it fails. */
  ghost predicate ParityFits(libs: Libraries, src: Source) {
    forall b: nat :: b < BatchCount(|src.data|) ==>
      var parity := ParityShards(libs, src.data, b); |parity| <= BATCH_PARITY_CHUNKS && AreShards(parity)
  }

  /** The packets of one batch in the order they are sent. */
  function BatchEvents(libs: Libraries, src: Source, b: nat): seq<Event> {
    seq(BatchDataSize(b, |src.data|), i requires 0 <= i => ChunkOf(b * BATCH_DATA_CHUNKS + i))
      + seq(|ParityShards(libs, src.data, b)|, i requires 0 <= i => ParityOf(b, i))
  }

  /** The two STARTs after the first. */
  function RepeatedStarts(libs: Libraries, src: Source): seq<Event> {
    [Noise(EncodePacket(StartPacket(libs, src))), Noise(EncodePacket(StartPacket(libs, src)))]
  }

  function Segment(libs: Libraries, src: Source, b: nat): seq<Event> {
    (if b == 0 then RepeatedStarts(libs, src) else [])
      + if b < BatchCount(|src.data|) then BatchEvents(libs, src, b) else []
  }

  function Segments(libs: Libraries, src: Source, n: nat): seq<seq<Event>> {
    if n == 0 then [] else Segments(libs, src, n - 1) + [Segment(libs, src, n - 1)]
  }

  /** The batch's datagrams are the batch's events. */
  lemma BatchCarried(libs: Libraries, src: Source, b: nat, k: nat)
    requires ParityFits(libs, src) && b < BatchCount(|src.data|) && k < |BatchDatagrams(libs, src, b)|
    ensures |BatchDatagrams(libs, src, b)| == |BatchEvents(libs, src, b)|
    ensures (b == 0 || BatchDataSize(b, |src.data|) > 0)
    ensures var e := BatchEvents(libs, src, b)[k];
            ValidEvent(libs, src, e) && RawOf(libs, src, e) == BatchDatagrams(libs, src, b)[k]
  {
    BatchSizes(b, |src.data|);
    ChunkInBatch(b * BATCH_DATA_CHUNKS + k, b, |src.data|);
    hide ParityShards, EncodePacket, DataPacket, ParityPacket, BatchDataSize, TotalChunks, BatchCount;
  }

  ghost predicate RawsAre(libs: Libraries, src: Source, raws: seq<Bytes>, events: seq<Event>) {
    && |raws| == |events|
    && forall k :: 0 <= k < |events| ==> ValidEvent(libs, src, events[k]) && raws[k] == RawOf(libs, src, events[k])
  }

  lemma BatchRaws(libs: Libraries, src: Source, b: nat)
    requires ParityFits(libs, src) && b < BatchCount(|src.data|)
    ensures RawsAre(libs, src, BatchDatagrams(libs, src, b), BatchEvents(libs, src, b))
  {
    hide BatchDatagrams, BatchEvents, BatchDataSize, ValidEvent, RawOf, BatchCount, ParityFits;
    BatchNotEmpty(libs, src, b);
    BatchCarried(libs, src, b, 0);
    forall k | 0 <= k < |BatchEvents(libs, src, b)|
      ensures var e := BatchEvents(libs, src, b)[k];
              ValidEvent(libs, src, e) && RawOf(libs, src, e) == BatchDatagrams(libs, src, b)[k]
    {
      BatchCarried(libs, src, b, k);
    }
  }

  lemma BatchNotEmpty(libs: Libraries, src: Source, b: nat)
    requires b < BatchCount(|src.data|)
    ensures |BatchDatagrams(libs, src, b)| > 0
  {
    BatchSizes(b, |src.data|);
    hide DataPacket, EncodePacket, ParityDatagrams;
  }

  lemma StartsAreNoise(libs: Libraries, src: Source)
    requires Sendable(libs, src)
    ensures var raw := EncodePacket(StartPacket(libs, src));
            RawsAre(libs, src, [raw, raw], RepeatedStarts(libs, src))
  {
    hide EncodePacket, Decode, EncodeParityField;
    RoundTripFits(StartPacket(libs, src));
  }

  lemma RawsAppend(libs: Libraries, src: Source, a: seq<Bytes>, x: seq<Event>, b: seq<Bytes>, y: seq<Event>)
    requires RawsAre(libs, src, a, x) && RawsAre(libs, src, b, y)
    ensures RawsAre(libs, src, a + b, x + y)
  {
    hide ValidEvent, RawOf;
  }

  /** The first `n` batches, with the repeated STARTs before them, are the first `n` segments. */
  lemma {:induction false} SegmentsCarried(libs: Libraries, src: Source, n: nat)
    requires Sendable(libs, src) && ParityFits(libs, src) && 0 < n <= BatchCount(|src.data|)
    ensures var raw := EncodePacket(StartPacket(libs, src));
            RawsAre(libs, src, [raw, raw] + FirstBatches(libs, src, n), Concat(Segments(libs, src, n)))
  {
    hide RawsAre, BatchDatagrams, BatchEvents, EncodePacket, StartPacket, BatchCount, ParityFits, RepeatedStarts;
    var raw := EncodePacket(StartPacket(libs, src));
    var starts := RepeatedStarts(libs, src);
    BatchRaws(libs, src, n - 1);
    ConcatAppend(Segments(libs, src, n - 1), Segment(libs, src, n - 1));
    if n == 1 {
      StartsAreNoise(libs, src);
      RawsAppend(libs, src, [raw, raw], starts, BatchDatagrams(libs, src, 0), BatchEvents(libs, src, 0));
      assert Concat(Segments(libs, src, 0)) == [];
      assert Concat(Segments(libs, src, 1)) == starts + BatchEvents(libs, src, 0);
      assert FirstBatches(libs, src, 1) == BatchDatagrams(libs, src, 0);
    } else {
      SegmentsCarried(libs, src, n - 1);
      RawsAppend(libs, src, [raw, raw] + FirstBatches(libs, src, n - 1), Concat(Segments(libs, src, n - 1)),
                 BatchDatagrams(libs, src, n - 1), BatchEvents(libs, src, n - 1));
      assert [raw, raw] + FirstBatches(libs, src, n)
          == ([raw, raw] + FirstBatches(libs, src, n - 1)) + BatchDatagrams(libs, src, n - 1);
      assert Segment(libs, src, n - 1) == BatchEvents(libs, src, n - 1);
    }
  }

  /** The chunks of the batch are among the events, wherever they are in a longer list. */
  lemma ChunksArrive(libs: Libraries, src: Source, before: seq<Event>, b: nat)
    ensures Interval(b * BATCH_DATA_CHUNKS, BatchDataSize(b, |src.data|))
              <= ChunksIn(before + BatchEvents(libs, src, b), b)
  {
    var events := before + BatchEvents(libs, src, b);
    var dataSize, start := BatchDataSize(b, |src.data|), b * BATCH_DATA_CHUNKS;
    assert dataSize <= BATCH_DATA_CHUNKS;
    hide BatchDataSize, ParityShards;
    forall c | c in Interval(start, dataSize) ensures c in ChunksIn(events, b) {
      assert events[|before| + c - start] == ChunkOf(c);
    }
  }

  /** All events of a batch belong to it. */
  lemma BatchEventsBelong(libs: Libraries, src: Source, b: nat, k: nat)
    requires k < |BatchEvents(libs, src, b)|
    ensures !BatchEvents(libs, src, b)[k].Noise? && EventBatch(BatchEvents(libs, src, b)[k]) == b
  {
    assert BatchDataSize(b, |src.data|) <= BATCH_DATA_CHUNKS;
    hide BatchDataSize, ParityShards;
  }

  /** Nothing in segment `b` is ahead of batch `b`. */
  lemma SegmentBelongs(libs: Libraries, src: Source, b: nat, k: nat)
    requires k < |Segment(libs, src, b)| && !Segment(libs, src, b)[k].Noise?
    ensures EventBatch(Segment(libs, src, b)[k]) <= b
  {
    hide BatchDataSize, BatchEvents, BatchCount, EncodePacket, StartPacket, EventBatch;
    var starts := if b == 0 then RepeatedStarts(libs, src) else [];
    if k >= |starts| {
      BatchEventsBelong(libs, src, b, k - |starts|);
    }
  }

  /** The sender's output between the first START and the first END. */
  function Middle(libs: Libraries, src: Source): seq<Bytes> {
    var raw := EncodePacket(StartPacket(libs, src));
    [raw, raw] + FirstBatches(libs, src, BatchCount(|src.data|))
  }

  /** That output is what the segments carry. */
  lemma MiddleIsCarried(libs: Libraries, src: Source)
    requires Sendable(libs, src) && ParityFits(libs, src)
    ensures RawsAre(libs, src, Middle(libs, src), Concat(Segments(libs, src, Max(1, BatchCount(|src.data|)))))
  {
    hide Segments, RawsAre, ParityFits;
    if BatchCount(|src.data|) == 0 {
      EmptyFileCarried(libs, src);
    } else {
      SegmentsCarried(libs, src, BatchCount(|src.data|));
    }
  }

  lemma EmptyFileCarried(libs: Libraries, src: Source)
    requires Sendable(libs, src) && BatchCount(|src.data|) == 0
    ensures RawsAre(libs, src, Middle(libs, src), Concat(Segments(libs, src, 1)))
  {
    StartsAreNoise(libs, src);
    hide RawsAre, EncodePacket, StartPacket, RepeatedStarts, BatchCount, BatchEvents;
    var starts := RepeatedStarts(libs, src);
    assert Segment(libs, src, 0) == starts;
    assert Segments(libs, src, 0) == [];
    assert Segments(libs, src, 1) == [starts];
    assert Concat([starts]) == starts;
    var raw := EncodePacket(StartPacket(libs, src));
    assert Middle(libs, src) == [raw, raw];
  }

  // ---- Parity packets that the sender's socket refused ----

  /** Of the events only parity was dropped. */
  ghost predicate DropsParity(events: seq<Event>, taken: seq<bool>) {
    |events| == |taken| && forall k :: 0 <= k < |events| && !taken[k] ==> events[k].ParityOf?
  }

  lemma {:induction false} RawsDelivered(
      libs: Libraries, src: Source, raws: seq<Bytes>, events: seq<Event>, taken: seq<bool>)
    requires RawsAre(libs, src, raws, events) && |taken| == |raws|
    ensures RawsAre(libs, src, Delivered(raws, taken), Delivered(events, taken))
  {
    hide ValidEvent, RawOf;
    if raws != [] {
      var n := |raws| - 1;
      RawsDelivered(libs, src, raws[..n], events[..n], taken[..n]);
    }
  }

  /** Every chunk is still there, and nothing new. */
  lemma {:induction false} ChunksSurvive(events: seq<Event>, taken: seq<bool>, b: nat)
    requires DropsParity(events, taken)
    ensures ChunksIn(Delivered(events, taken), b) == ChunksIn(events, b)
    ensures forall e :: e in Delivered(events, taken) ==> e in events
  {
    hide ChunksIn, BatchForData;
    if events != [] {
      var n := |events| - 1;
      ChunksSurvive(events[..n], taken[..n], b);
      assert events == events[..n] + [events[n]];
      InOneMore(events[..n], events[n], b);
      InOneMore(Delivered(events[..n], taken[..n]), events[n], b);
      assert Delivered(events[..n], taken[..n]) + [] == Delivered(events[..n], taken[..n]);
    }
  }

  /** All the chunks are left. */
  lemma DroppedParityIsFull(libs: Libraries, src: Source, b: nat, taken: seq<bool>)
    requires b == 0 || b < BatchCount(|src.data|)
    requires DropsParity(Segment(libs, src, b), taken)
    ensures FullSegment(Delivered(Segment(libs, src, b), taken), b, |src.data|)
  {
    hide BatchDataSize, BatchEvents, BatchCount, ChunksIn, EncodePacket, StartPacket, Interval, EventBatch,
      RepeatedStarts, Delivered, Segment;
    var segment := Segment(libs, src, b);
    ChunksSurvive(segment, taken, b);
    BatchSizes(b, |src.data|);
    if b < BatchCount(|src.data|) {
      SegmentHasChunks(libs, src, b);
    }
    var events := Delivered(segment, taken);
    forall k | 0 <= k < |events| && !events[k].Noise? ensures EventBatch(events[k]) <= b {
      assert events[k] in segment;
      var j :| 0 <= j < |segment| && segment[j] == events[k];
      SegmentBelongs(libs, src, b, j);
    }
  }

  lemma SegmentHasChunks(libs: Libraries, src: Source, b: nat)
    requires b < BatchCount(|src.data|)
    ensures Interval(b * BATCH_DATA_CHUNKS, BatchDataSize(b, |src.data|)) <= ChunksIn(Segment(libs, src, b), b)
  {
    hide BatchDataSize, BatchEvents, BatchCount, ChunksIn, Interval, RepeatedStarts;
    ChunksArrive(libs, src, if b == 0 then RepeatedStarts(libs, src) else [], b);
  }

  /** The segments with what was refused taken out. */
  function DeliveredSegments(libs: Libraries, src: Source, n: nat, taken: seq<bool>): seq<seq<Event>>
    requires |taken| == |Concat(Segments(libs, src, n))|
  {
    if n == 0 then [] else
      ConcatAppend(Segments(libs, src, n - 1), Segment(libs, src, n - 1));
      var before := |Concat(Segments(libs, src, n - 1))|;
      DeliveredSegments(libs, src, n - 1, taken[..before]) + [Delivered(Segment(libs, src, n - 1), taken[before..])]
  }

  lemma {:induction false} DeliveredSegmentsAre(libs: Libraries, src: Source, n: nat, taken: seq<bool>)
    requires |taken| == |Concat(Segments(libs, src, n))| && DropsParity(Concat(Segments(libs, src, n)), taken)
    requires n <= Max(1, BatchCount(|src.data|))
    ensures var segments := DeliveredSegments(libs, src, n, taken);
            && Concat(segments) == Delivered(Concat(Segments(libs, src, n)), taken)
            && |segments| == n && forall b :: 0 <= b < n ==> FullSegment(segments[b], b, |src.data|)
  {
    hide Segment, FullSegment, Delivered, BatchCount;
    if n > 0 {
      var whole, last := Concat(Segments(libs, src, n - 1)), Segment(libs, src, n - 1);
      ConcatAppend(Segments(libs, src, n - 1), last);
      var a, b := taken[..|whole|], taken[|whole|..];
      assert taken == a + b;
      PartsDropParity(whole, a, last, b);
      DeliveredSegmentsAre(libs, src, n - 1, a);
      DroppedParityIsFull(libs, src, n - 1, b);
      DeliveredJoins(whole, a, last, b);
      ConcatAppend(DeliveredSegments(libs, src, n - 1, a), Delivered(last, b));
    } else {
      assert Delivered<Event>([], taken) == [] by { NothingDelivered<Event>(taken); }
    }
  }

  lemma NothingDelivered<T>(taken: seq<bool>)
    requires taken == []
    ensures Delivered<T>([], taken) == []
  {
  }

  lemma PartsDropParity(a: seq<Event>, takenA: seq<bool>, b: seq<Event>, takenB: seq<bool>)
    requires |a| == |takenA| && DropsParity(a + b, takenA + takenB)
    ensures DropsParity(a, takenA) && DropsParity(b, takenB)
  {
    forall k | 0 <= k < |a| && !takenA[k] ensures a[k].ParityOf? {
      assert (a + b)[k] == a[k] && (takenA + takenB)[k] == takenA[k];
    }
    forall k | 0 <= k < |b| && !takenB[k] ensures b[k].ParityOf? {
      assert (a + b)[|a| + k] == b[k] && (takenA + takenB)[|a| + k] == takenB[k];
    }
  }

  /** Only parity packets look like parity packets. */
  lemma FirstByte(p: Packet)
    requires p.pkgType < 10
    ensures IsParity(EncodePacket(p)) <==> p.pkgType == PARITY
  {
  }

  /** No chunk and no START looks like a parity packet. */
  ghost predicate OnlyParityLooksSo(libs: Libraries, src: Source, events: seq<Event>) {
    forall k :: 0 <= k < |events| ==>
      ValidEvent(libs, src, events[k]) && (IsParity(RawOf(libs, src, events[k])) ==> events[k].ParityOf?)
  }

  lemma ChunkLooks(libs: Libraries, src: Source, c: nat)
    requires ValidEvent(libs, src, ChunkOf(c))
    ensures !IsParity(RawOf(libs, src, ChunkOf(c)))
  {
    hide EncodePacket, IsParity, Chunk;
    FirstByte(DataPacket(libs, src, c));
  }

  lemma BatchLooks(libs: Libraries, src: Source, b: nat)
    requires ParityFits(libs, src) && b < BatchCount(|src.data|)
    ensures OnlyParityLooksSo(libs, src, BatchEvents(libs, src, b))
  {
    hide EncodePacket, IsParity, ParityShards, Chunk, ParityFits, ValidEvent, RawOf, BatchCount, BatchDatagrams;
    var events := BatchEvents(libs, src, b);
    BatchRaws(libs, src, b);
    forall k | 0 <= k < |events|
      ensures ValidEvent(libs, src, events[k]) && (IsParity(RawOf(libs, src, events[k])) ==> events[k].ParityOf?)
    {
      if events[k].ChunkOf? {
        ChunkLooks(libs, src, events[k].c);
      }
    }
  }

  lemma StartsLook(libs: Libraries, src: Source)
    requires Sendable(libs, src)
    ensures OnlyParityLooksSo(libs, src, RepeatedStarts(libs, src))
  {
    hide EncodePacket, IsParity, Decode, StartPacket;
    StartsAreNoise(libs, src);
    assert StartPacket(libs, src).pkgType == START by { StartHasType(libs, src); }
    FirstByte(StartPacket(libs, src));
  }

  lemma StartHasType(libs: Libraries, src: Source)
    ensures StartPacket(libs, src).pkgType == START
  {
  }

  lemma {:induction false} SegmentsLook(libs: Libraries, src: Source, n: nat)
    requires Sendable(libs, src) && ParityFits(libs, src) && n <= Max(1, BatchCount(|src.data|))
    ensures OnlyParityLooksSo(libs, src, Concat(Segments(libs, src, n)))
  {
    hide EncodePacket, IsParity, ParityFits, ValidEvent, RawOf, BatchEvents, RepeatedStarts, BatchCount;
    if n > 0 {
      SegmentsLook(libs, src, n - 1);
      ConcatAppend(Segments(libs, src, n - 1), Segment(libs, src, n - 1));
      StartsLook(libs, src);
      if n - 1 < BatchCount(|src.data|) {
        BatchLooks(libs, src, n - 1);
      }
    }
  }

  /** If only parity packets were refused, only parity events are dropped. */
  lemma RefusedIsParity(libs: Libraries, src: Source, raws: seq<Bytes>, events: seq<Event>, taken: seq<bool>)
    requires RawsAre(libs, src, raws, events) && OnlyParityLooksSo(libs, src, events) && ParityOnly(0, raws, taken)
    ensures DropsParity(events, taken)
  {
    hide ValidEvent, RawOf, IsParity;
  }

  /** What is left of the sender's output between the first START and the first END is a full delivery. */
  lemma DeliveredMiddleIsFull(libs: Libraries, src: Source, taken: seq<bool>) returns (segments: seq<seq<Event>>)
    requires Sendable(libs, src) && ParityFits(libs, src) && ParityOnly(0, Middle(libs, src), taken)
    ensures FullDelivery(segments, |src.data|)
    ensures RawsAre(libs, src, Delivered(Middle(libs, src), taken), Concat(segments))
  {
    hide Sendable, ParityFits, ParityOnly, RawsAre, OnlyParityLooksSo, Middle, Segments, BatchCount, FullSegment,
      DeliveredSegments,
      DropsParity, Delivered;
    var n := Max(1, BatchCount(|src.data|));
    var events := Concat(Segments(libs, src, n));
    MiddleIsCarried(libs, src);
    SegmentsLook(libs, src, n);
    RefusedIsParity(libs, src, Middle(libs, src), events, taken);
    SameLengths(libs, src, Middle(libs, src), events, taken);
    segments := DeliveredSegments(libs, src, n, taken);
    DeliveredSegmentsAre(libs, src, n, taken);
    RawsDelivered(libs, src, Middle(libs, src), events, taken);
  }

  lemma SameLengths(libs: Libraries, src: Source, raws: seq<Bytes>, events: seq<Event>, taken: seq<bool>)
    requires RawsAre(libs, src, raws, events) && DropsParity(events, taken)
    ensures |raws| == |events| == |taken|
  {
    hide ValidEvent, RawOf;
  }

  /** The first START and the three ENDs are never refused. */
  lemma EndsDelivered(raw: Bytes, middle: seq<Bytes>, endRaw: Bytes, taken: seq<bool>)
    requires !IsParity(raw) && !IsParity(endRaw) && ParityOnly(0, [raw] + middle + [endRaw] + [endRaw, endRaw], taken)
    ensures |taken| == |middle| + 4 && ParityOnly(0, middle, taken[1..|middle| + 1])
    ensures Delivered([raw] + middle + [endRaw] + [endRaw, endRaw], taken)
              == [raw] + Delivered(middle, taken[1..|middle| + 1]) + [endRaw] + [endRaw, endRaw]
  {
    hide IsParity, Delivered;
    var n := |middle|;
    var all := [raw] + middle + [endRaw] + [endRaw, endRaw];
    assert all[0] == raw && all[n + 1] == endRaw && all[n + 2] == endRaw && all[n + 3] == endRaw;
    assert forall k :: 0 <= k < n ==> middle[k] == all[k + 1];
    var a, b, c := taken[..1], taken[1..n + 1], taken[n + 1..];
    assert taken == a + b + c && all == [raw] + middle + [endRaw, endRaw, endRaw];
    DeliveredJoins([raw], a, middle, b);
    DeliveredJoins([raw] + middle, a + b, [endRaw, endRaw, endRaw], c);
    AllDelivered([raw], a);
    AllDelivered([endRaw, endRaw, endRaw], c);
  }

  lemma SentInParts(libs: Libraries, src: Source)
    ensures var raw, endRaw := EncodePacket(StartPacket(libs, src)), EncodePacket(EndPacket(libs, src));
            SentFor(libs, src) == [raw] + Middle(libs, src) + [endRaw] + [endRaw, endRaw]
  {
    hide EncodePacket, StartPacket, EndPacket, FirstBatches, BatchCount;
  }

  lemma EndsAreNotStarts(libs: Libraries, src: Source)
    requires Sendable(libs, src)
    ensures NotStart(EncodePacket(EndPacket(libs, src)))
  {
    hide Decode, EncodePacket;
    EndIsEnd(libs, src);
  }

  lemma RawsCarried(libs: Libraries, src: Source, arrivals: seq<Arrival>, raws: seq<Bytes>, events: seq<Event>)
    requires RawsAre(libs, src, raws, events) && |arrivals| == |raws|
    requires forall k :: 0 <= k < |arrivals| ==> arrivals[k].raw == raws[k] && arrivals[k].io.badWrite.None?
    ensures Carries(libs, src, arrivals, events)
  {
    hide ValidEvent, RawOf;
  }

  /**
    End to end: the datagrams of a file that `SendFileChunks` gets onto the wire, whatever the encoder does and
    whichever parity packets the socket refuses, delivered in order, make the receiver publish exactly the file
    that was sent. The decoder is never called.
  */
  lemma SentIsReceived(libs: Libraries, src: Source, w: World, taken: seq<bool>, arrivals: seq<Arrival>)
    requires Sendable(libs, src) && ParityFits(libs, src) && w.state == FRESH
    requires ParityOnly(0, SentFor(libs, src), taken)
    requires |arrivals| == |Delivered(SentFor(libs, src), taken)|
    requires forall k :: 0 <= k < |arrivals| ==>
               arrivals[k].raw == Delivered(SentFor(libs, src), taken)[k] && arrivals[k].io == Io(Opened, true, None)
    ensures var w' := Run(libs, w, arrivals);
            && w'.state == FRESH && IsPublished(w'.files, src.path, src.data)
            && w'.stats.filesTransferred == w.stats.filesTransferred + 1
            && w'.stats.filesFailed == w.stats.filesFailed
  {
    hide Run, EncodePacket, StartPacket, EndPacket, FirstBatches, Sendable, ParityFits, IsPublished, FullDelivery,
      Decode, Segments, BatchCount, Concat, SameElsewhere, IsParity, Delivered, ParityOnly, RawsAre, Carries, Middle,
      NotStart;
    var raw, endRaw := EncodePacket(StartPacket(libs, src)), EncodePacket(EndPacket(libs, src));
    var middle := Middle(libs, src);
    SentInParts(libs, src);
    ControlsLook(libs, src);
    EndsDelivered(raw, middle, endRaw, taken);
    var segments := DeliveredMiddleIsFull(libs, src, taken[1..|middle| + 1]);
    EndsAreNotStarts(libs, src);
    EndIsEnd(libs, src);
    var n := |Delivered(middle, taken[1..|middle| + 1])|;
    var start, packets, end, after := arrivals[0], arrivals[1..n + 1], arrivals[n + 1], arrivals[n + 2..];
    RawsCarried(libs, src, packets, Delivered(middle, taken[1..|middle| + 1]), Concat(segments));
    EveryChunkArrives(libs, src, w, start, packets, segments, end);
    assert arrivals == ([start] + packets + [end]) + after;
    RunConcat(libs, w, [start] + packets + [end], after);
    IdleIgnores(libs, Run(libs, w, [start] + packets + [end]), after);
  }

  lemma ControlsLook(libs: Libraries, src: Source)
    ensures !IsParity(EncodePacket(StartPacket(libs, src))) && !IsParity(EncodePacket(EndPacket(libs, src)))
  {
    hide EncodePacket, IsParity;
    FirstByte(StartPacket(libs, src));
    FirstByte(EndPacket(libs, src));
  }
}
