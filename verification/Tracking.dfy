/**
  A receiver without bytes. It only remembers which chunk and parity numbers of the current batch it has
  seen, and it is what a whole transfer comes down to: `Transfer` proves that the real receiver, with its
  buffers, decoder and file, always agrees with it.
 */
module Tracking {
  import opened Basics
  import opened Batches

  /** One thing that arrives while a file is in flight. `Noise` is any datagram the receiver ignores. */
  datatype Event = ChunkOf(c: nat) | ParityOf(b: nat, i: nat) | Noise(raw: Bytes)

  datatype Tracker = Tracker(batch: nat, data: set<nat>, parity: set<nat>, failed: bool)

  const NOTHING_YET: Tracker := Tracker(0, {}, {}, false)

  function EventBatch(e: Event): nat
    requires !e.Noise?
  {
    if e.ChunkOf? then BatchForData(e.c) else e.b
  }

  function Seen(t: Tracker, e: Event): Tracker {
    match e
    case ChunkOf(c) => t.(data := t.data + {c})
    case ParityOf(_, i) => t.(parity := t.parity + {i})
    case Noise(_) => t
  }

  /** As many packets of the current batch as it has chunks. */
  predicate Enough(t: Tracker, fileSize: nat) {
    |t.data| + |t.parity| >= BatchDataSize(t.batch, fileSize)
  }

  /** A packet of the next batch is fine once this batch is complete; anything further ahead is not. */
  function Track(t: Tracker, e: Event, fileSize: nat): Tracker {
    if t.failed || e.Noise? || EventBatch(e) < t.batch then t
    else if EventBatch(e) == t.batch then Seen(t, e)
    else if EventBatch(e) == t.batch + 1 && Enough(t, fileSize) then Seen(Tracker(t.batch + 1, {}, {}, false), e)
    else t.(failed := true)
  }

  function TrackAll(t: Tracker, events: seq<Event>, fileSize: nat): Tracker
    decreases |events|
  {
    if events == [] then t else TrackAll(Track(t, events[0], fileSize), events[1..], fileSize)
  }

  lemma {:induction false} TrackConcat(t: Tracker, a: seq<Event>, b: seq<Event>, fileSize: nat)
    ensures TrackAll(t, a + b, fileSize) == TrackAll(TrackAll(t, a, fileSize), b, fileSize)
    decreases |a|
  {
    if a == [] {
      assert a + b == b;
    } else {
      assert (a + b)[1..] == a[1..] + b;
      TrackConcat(Track(t, a[0], fileSize), a[1..], b, fileSize);
    }
  }

  /** The highest batch of which anything arrived, or `least`. */
  function HighestBatch(events: seq<Event>, least: nat): nat
    decreases |events|
  {
    if events == [] then least
    else if events[0].Noise? then HighestBatch(events[1..], least)
    else HighestBatch(events[1..], Max(least, EventBatch(events[0])))
  }

  /** A transfer that has not failed is collecting the highest batch that has arrived. */
  lemma {:induction false} CollectsHighest(t: Tracker, events: seq<Event>, fileSize: nat)
    requires !TrackAll(t, events, fileSize).failed
    ensures !t.failed && TrackAll(t, events, fileSize).batch == HighestBatch(events, t.batch)
    decreases |events|
  {
    if events != [] {
      CollectsHighest(Track(t, events[0], fileSize), events[1..], fileSize);
    }
  }

  // ---- When the decoder is called ----

  /** The batch is complete, but some of its chunks are missing. */
  predicate NeedsDecoder(t: Tracker, fileSize: nat) {
    !t.failed && |t.data| < BatchDataSize(t.batch, fileSize) && Enough(t, fileSize)
  }

  /** The event is of a later batch, so the current one is closed. */
  predicate Closes(t: Tracker, e: Event) {
    !t.failed && !e.Noise? && EventBatch(e) > t.batch
  }

  /** No batch that is closed along the way takes the decoder. */
  predicate NeverDecodes(t: Tracker, events: seq<Event>, fileSize: nat)
    decreases |events|
  {
    events != [] ==>
      && !(Closes(t, events[0]) && NeedsDecoder(t, fileSize))
      && NeverDecodes(Track(t, events[0], fileSize), events[1..], fileSize)
  }

  lemma {:induction false} NeverDecodesConcat(t: Tracker, a: seq<Event>, b: seq<Event>, fileSize: nat)
    requires NeverDecodes(t, a, fileSize) && NeverDecodes(TrackAll(t, a, fileSize), b, fileSize)
    ensures NeverDecodes(t, a + b, fileSize)
    decreases |a|
  {
    hide Track, Closes, NeedsDecoder;
    if a == [] {
      assert a + b == b;
    } else {
      assert (a + b)[1..] == a[1..] + b;
      NeverDecodesConcat(Track(t, a[0], fileSize), a[1..], b, fileSize);
    }
  }

  // ---- Deliveries good enough to recover ----

  /** The chunk numbers of batch `b` among the events. */
  ghost function ChunksIn(events: seq<Event>, b: nat): set<nat> {
    set k | 0 <= k < |events| && events[k].ChunkOf? && BatchForData(events[k].c) == b :: events[k].c
  }

  ghost function ParityIn(events: seq<Event>, b: nat): set<nat> {
    set k | 0 <= k < |events| && events[k].ParityOf? && events[k].b == b :: events[k].i
  }

  /** What arrives while batch `b` is sent: enough different packets of it, late packets of earlier batches, noise. */
  ghost predicate GoodSegment(events: seq<Event>, b: nat, fileSize: nat) {
    && (forall k :: 0 <= k < |events| && !events[k].Noise? ==> EventBatch(events[k]) <= b)
    && |ChunksIn(events, b)| + |ParityIn(events, b)| >= BatchDataSize(b, fileSize)
  }

  /** One good segment for each batch of the file, in order; an empty file has one segment of noise. */
  ghost predicate GoodDelivery(segments: seq<seq<Event>>, fileSize: nat) {
    && |segments| == Max(1, BatchCount(fileSize))
    && forall b :: 0 <= b < |segments| ==> GoodSegment(segments[b], b, fileSize)
  }

  /** Losing at most 100 of the packets sent for a batch, whichever they are, leaves enough of them. */
  lemma TolerableLoss(events: seq<Event>, b: nat, fileSize: nat, lostChunks: set<nat>, lostParity: set<nat>)
    requires |lostChunks| + |lostParity| <= BATCH_PARITY_CHUNKS
    requires Interval(b * BATCH_DATA_CHUNKS, BatchDataSize(b, fileSize)) - lostChunks <= ChunksIn(events, b)
    requires Interval(0, BATCH_PARITY_CHUNKS) - lostParity <= ParityIn(events, b)
    ensures |ChunksIn(events, b)| + |ParityIn(events, b)| >= BatchDataSize(b, fileSize)
  {
    hide ChunksIn, ParityIn, BatchDataSize, Interval;
    var chunks := Interval(b * BATCH_DATA_CHUNKS, BatchDataSize(b, fileSize));
    var parity := Interval(0, BATCH_PARITY_CHUNKS);
    SubsetSize(chunks - lostChunks, ChunksIn(events, b));
    SubsetSize(parity - lostParity, ParityIn(events, b));
    Remaining(chunks, lostChunks);
    Remaining(parity, lostParity);
  }

  /** The packets of one batch that never arrive as they were sent. */
  datatype Loss = Loss(chunks: set<nat>, parity: set<nat>)

  /** All packets of batch `b` arrive but at most 100 lost ones, and nothing of a later batch. */
  ghost predicate LossySegment(events: seq<Event>, b: nat, fileSize: nat, loss: Loss) {
    && (forall k :: 0 <= k < |events| && !events[k].Noise? ==> EventBatch(events[k]) <= b)
    && |loss.chunks| + |loss.parity| <= BATCH_PARITY_CHUNKS
    && (b < BatchCount(fileSize) ==>
          && Interval(b * BATCH_DATA_CHUNKS, BatchDataSize(b, fileSize)) - loss.chunks <= ChunksIn(events, b)
          && Interval(0, BATCH_PARITY_CHUNKS) - loss.parity <= ParityIn(events, b))
  }

  ghost predicate LossyDelivery(segments: seq<seq<Event>>, fileSize: nat, losses: seq<Loss>) {
    && |segments| == |losses| == Max(1, BatchCount(fileSize))
    && forall b :: 0 <= b < |segments| ==> LossySegment(segments[b], b, fileSize, losses[b])
  }

  lemma LossyIsGood(segments: seq<seq<Event>>, fileSize: nat, losses: seq<Loss>)
    requires LossyDelivery(segments, fileSize, losses)
    ensures GoodDelivery(segments, fileSize)
  {
    hide ChunksIn, ParityIn, BatchDataSize, Interval, EventBatch, BatchCount;
    forall b | 0 <= b < |segments| ensures GoodSegment(segments[b], b, fileSize) {
      assert LossySegment(segments[b], b, fileSize, losses[b]);
      BatchSizes(b, fileSize);
      if b < BatchCount(fileSize) {
        TolerableLoss(segments[b], b, fileSize, losses[b].chunks, losses[b].parity);
      }
    }
  }

  /** Every chunk of batch `b` arrives, and nothing of a later batch. */
  ghost predicate FullSegment(events: seq<Event>, b: nat, fileSize: nat) {
    && (forall k :: 0 <= k < |events| && !events[k].Noise? ==> EventBatch(events[k]) <= b)
    && Interval(b * BATCH_DATA_CHUNKS, BatchDataSize(b, fileSize)) <= ChunksIn(events, b)
  }

  ghost predicate FullDelivery(segments: seq<seq<Event>>, fileSize: nat) {
    && |segments| == Max(1, BatchCount(fileSize))
    && forall b :: 0 <= b < |segments| ==> FullSegment(segments[b], b, fileSize)
  }

  lemma FullIsGood(segments: seq<seq<Event>>, fileSize: nat)
    requires FullDelivery(segments, fileSize)
    ensures GoodDelivery(segments, fileSize)
  {
    hide ChunksIn, ParityIn, BatchDataSize, Interval, EventBatch, BatchCount;
    forall b | 0 <= b < |segments| ensures GoodSegment(segments[b], b, fileSize) {
      assert FullSegment(segments[b], b, fileSize);
      SubsetSize(Interval(b * BATCH_DATA_CHUNKS, BatchDataSize(b, fileSize)), ChunksIn(segments[b], b));
    }
  }

  /** All chunks of the batch are there. */
  predicate Full(t: Tracker, fileSize: nat) {
    !t.failed && |t.data| >= BatchDataSize(t.batch, fileSize)
  }

  /** While nothing of a later batch arrives, the decoder is not called for a batch that was full. */
  lemma {:induction false} SegmentNeverDecodes(t: Tracker, events: seq<Event>, b: nat, fileSize: nat)
    requires !t.failed && (t.batch == b || (t.batch + 1 == b && Full(t, fileSize)))
    requires forall k :: 0 <= k < |events| && !events[k].Noise? ==> EventBatch(events[k]) <= b
    ensures NeverDecodes(t, events, fileSize)
    decreases |events|
  {
    if events != [] {
      var t' := Track(t, events[0], fileSize);
      if t'.batch == t.batch {
        SubsetSize(t.data, t'.data);
      }
      hide BatchDataSize, Track;
      SegmentNeverDecodes(t', events[1..], b, fileSize);
    }
  }

  /** A full segment leaves its batch full. */
  lemma FullSegmentFills(t: Tracker, events: seq<Event>, b: nat, fileSize: nat)
    requires !t.failed && (t.batch == b || (t.batch + 1 == b && Full(t, fileSize)))
    requires b == 0 || b < BatchCount(fileSize)
    requires FullSegment(events, b, fileSize)
    ensures NeverDecodes(t, events, fileSize)
    ensures var t' := TrackAll(t, events, fileSize); Full(t', fileSize) && t'.batch == b
  {
    hide ChunksIn, ParityIn, Interval, TrackAll, NeverDecodes;
    SegmentNeverDecodes(t, events, b, fileSize);
    SegmentStays(t, events, b, fileSize);
    BatchSizes(b, fileSize);
    var whole := Interval(b * BATCH_DATA_CHUNKS, BatchDataSize(b, fileSize));
    var t' := TrackAll(t, events, fileSize);
    if t'.batch == b {
      SubsetSize(whole, t'.data);
    } else {
      SubsetSize(whole, {});
    }
    hide BatchCount, BatchDataSize;
  }

  lemma {:induction false} FullPrefixNeverDecodes(segments: seq<seq<Event>>, n: nat, fileSize: nat)
    requires FullDelivery(segments, fileSize) && 0 < n <= |segments|
    ensures NeverDecodes(NOTHING_YET, Concat(segments[..n]), fileSize)
    ensures var t := TrackAll(NOTHING_YET, Concat(segments[..n]), fileSize); Full(t, fileSize) && t.batch == n - 1
  {
    hide NeverDecodes, Full, FullSegment;
    assert segments[..n] == segments[..n - 1] + [segments[n - 1]];
    ConcatAppend(segments[..n - 1], segments[n - 1]);
    var before := Concat(segments[..n - 1]);
    TrackConcat(NOTHING_YET, before, segments[n - 1], fileSize);
    var t := TrackAll(NOTHING_YET, before, fileSize);
    if n == 1 {
      assert before == [];
      NothingDecoded(fileSize);
    } else {
      FullPrefixNeverDecodes(segments, n - 1, fileSize);
      FullIsUnfailed(t, fileSize);
    }
    FullSegmentFills(t, segments[n - 1], n - 1, fileSize);
    NeverDecodesConcat(NOTHING_YET, before, segments[n - 1], fileSize);
  }

  lemma NothingDecoded(fileSize: nat)
    ensures NeverDecodes(NOTHING_YET, [], fileSize)
  {
  }

  lemma FullIsUnfailed(t: Tracker, fileSize: nat)
    requires Full(t, fileSize)
    ensures !t.failed
  {
  }

  /** If every chunk arrives, batch by batch, the decoder is never called, not for the last batch either. */
  lemma FullDeliveryNeverDecodes(segments: seq<seq<Event>>, fileSize: nat)
    requires FullDelivery(segments, fileSize)
    ensures NeverDecodes(NOTHING_YET, Concat(segments), fileSize)
    ensures !NeedsDecoder(TrackAll(NOTHING_YET, Concat(segments), fileSize), fileSize)
  {
    assert segments[..|segments|] == segments;
    FullPrefixNeverDecodes(segments, |segments|, fileSize);
    hide FullSegment, NeverDecodes, TrackAll, BatchDataSize;
  }

  lemma Remaining(all: set<nat>, lost: set<nat>)
    ensures |all - lost| >= |all| - |lost|
  {
    SubsetSize(all, (all - lost) + lost);
    assert |(all - lost) + lost| == |all - lost| + |lost|;
  }

  lemma InOneMore(events: seq<Event>, e: Event, b: nat)
    ensures ChunksIn(events + [e], b) ==
            ChunksIn(events, b) + if e.ChunkOf? && BatchForData(e.c) == b then {e.c} else {}
    ensures ParityIn(events + [e], b) ==
            ParityIn(events, b) + if e.ParityOf? && e.b == b then {e.i} else {}
  {
    var more := events + [e];
    assert forall k :: 0 <= k < |events| ==> more[k] == events[k];
    assert more[|events|] == e;
  }

  /** Segment `b` never fails a tracker that is at batch `b`, or at `b - 1` with enough of it. */
  lemma {:induction false} SegmentStays(t: Tracker, events: seq<Event>, b: nat, fileSize: nat)
    requires !t.failed
    requires t.batch == b || (t.batch + 1 == b && Enough(t, fileSize))
    requires forall k :: 0 <= k < |events| && !events[k].Noise? ==> EventBatch(events[k]) <= b
    ensures var t' := TrackAll(t, events, fileSize);
            && !t'.failed && (t'.batch == b || (t'.batch == t.batch && Enough(t', fileSize)))
            && (t'.batch == t.batch ==> t.data <= t'.data && t.parity <= t'.parity)
            && (t'.batch == b ==> ChunksIn(events, b) <= t'.data && ParityIn(events, b) <= t'.parity)
            && (t'.batch != b ==> ChunksIn(events, b) == {} && ParityIn(events, b) == {})
    decreases |events|
  {
    if events != [] {
      var n := |events| - 1;
      var before, e := events[..n], events[n];
      assert events == before + [e];
      SegmentStays(t, before, b, fileSize);
      TrackConcat(t, before, [e], fileSize);
      InOneMore(before, e, b);
      var mid := TrackAll(t, before, fileSize);
      assert TrackAll(mid, [e], fileSize) == Track(mid, e, fileSize);
      if mid.batch != b && !e.Noise? && EventBatch(e) == mid.batch {
        SubsetSize(mid.data, Seen(mid, e).data);
        SubsetSize(mid.parity, Seen(mid, e).parity);
      }
    }
  }

  /** A good segment leaves the tracker at batch `b` with enough of it. */
  lemma GoodSegmentCompletes(t: Tracker, events: seq<Event>, b: nat, fileSize: nat)
    requires !t.failed
    requires t.batch == b || (t.batch + 1 == b && Enough(t, fileSize))
    requires b == 0 || b < BatchCount(fileSize)
    requires GoodSegment(events, b, fileSize)
    ensures var t' := TrackAll(t, events, fileSize);
            !t'.failed && t'.batch == b && Enough(t', fileSize)
  {
    SegmentStays(t, events, b, fileSize);
    BatchSizes(b, fileSize);
    var t' := TrackAll(t, events, fileSize);
    if t'.batch == b {
      SubsetSize(ChunksIn(events, b), t'.data);
      SubsetSize(ParityIn(events, b), t'.parity);
    }
  }

  /** A good delivery of the first `n` batches (n > 0) ends complete in batch `n - 1`. */
  lemma {:induction false} GoodPrefixCompletes(segments: seq<seq<Event>>, n: nat, fileSize: nat)
    requires GoodDelivery(segments, fileSize) && 0 < n <= |segments|
    ensures var t := TrackAll(NOTHING_YET, Concat(segments[..n]), fileSize);
            !t.failed && t.batch == n - 1 && Enough(t, fileSize)
  {
    assert segments[..n] == segments[..n - 1] + [segments[n - 1]];
    ConcatAppend(segments[..n - 1], segments[n - 1]);
    TrackConcat(NOTHING_YET, Concat(segments[..n - 1]), segments[n - 1], fileSize);
    if n == 1 {
      assert Concat(segments[..0]) == [];
    } else {
      GoodPrefixCompletes(segments, n - 1, fileSize);
    }
    GoodSegmentCompletes(TrackAll(NOTHING_YET, Concat(segments[..n - 1]), fileSize), segments[n - 1], n - 1, fileSize);
  }

  /** After a good delivery of the whole file the transfer has not failed and its last batch is complete. */
  lemma GoodDeliveryCompletes(segments: seq<seq<Event>>, fileSize: nat)
    requires GoodDelivery(segments, fileSize)
    ensures var t := TrackAll(NOTHING_YET, Concat(segments), fileSize);
            !t.failed && t.batch + 1 >= BatchCount(fileSize) && Enough(t, fileSize)
  {
    assert segments[..|segments|] == segments;
    GoodPrefixCompletes(segments, |segments|, fileSize);
  }
}
