/** The promises of the whole diode: tolerable loss never shows, and exactly when a published file can be wrong. */
module Recovery {
  import opened Basics
  import opened Batches
  import opened Wire
  import opened Erasure
  import opened Names
  import opened Receiver
  import opened Protocol
  import opened Tracking
  import opened Transfer
  import opened Exactness
  import opened Publication

  // ---- Exact safety ----

  predicate AllZeroFrom(data: Bytes, cut: nat) {
    forall i :: cut <= i < |data| ==> data[i] == 0
  }

  /** A file filled up to `cut` is the source exactly when the source has only zeros from there on. */
  lemma FilledIsSource(data: Bytes, cut: nat)
    requires cut <= |data|
    ensures Filled(data, cut) == data <==> AllZeroFrom(data, cut)
  {
    if AllZeroFrom(data, cut) {
      assert forall i :: 0 <= i < |data| ==> Filled(data, cut)[i] == data[i];
    } else {
      var i :| cut <= i < |data| && data[i] != 0;
      assert Filled(data, cut)[i] != data[i];
    }
  }

  /**
    Exact safety. Whatever happened to the packets of a transfer, if END publishes the file then it is the
    source up to the end of the highest batch that arrived and zeros from there on; so it is the source
    exactly when the rest of the source is zeros, and always when something of the last batch arrived.
  */
  lemma PublishedContent(
    libs: Libraries, src: Source, w: World, start: Arrival, arrivals: seq<Arrival>, events: seq<Event>, end: Arrival)
    requires Sendable(libs, src) && w.state == FRESH
    requires start.raw == EncodePacket(StartPacket(libs, src)) && start.io.open == Opened
    requires Carries(libs, src, arrivals, events)
    requires Decode(end.raw).Some? && Decode(end.raw).value.pkgType == END && end.io.badWrite.None?
    requires Assured(libs, events, |src.data|)
    ensures var files := Run(libs, w, [start] + arrivals + [end]).files;
            var cut := Reached(HighestBatch(events, 0) + 1, |src.data|);
            src.path in files ==>
              && files[src.path] == Filled(src.data, cut)
              && (files[src.path] == src.data <==> AllZeroFrom(src.data, cut))
              && (HighestBatch(events, 0) + 1 >= BatchCount(|src.data|) ==> files[src.path] == src.data)
  {
    hide Run, Sendable, Carries, Decode, TrackAll, Assured, HighestBatch, Filled, EncodePacket, BatchCount, Enough;
    TransferExact(libs, src, w, start, arrivals, events, end);
    var t := TrackAll(NOTHING_YET, events, |src.data|);
    if Complete(t, |src.data|) {
      CollectsHighest(NOTHING_YET, events, |src.data|);
      FilledIsSource(src.data, Reached(t.batch + 1, |src.data|));
      BatchSizes(t.batch, |src.data|);
    }
  }

  // ---- Recovery ----

  /** An END that publishes, as far as the file system is concerned. */
  predicate EndsWell(end: Arrival) {
    Decode(end.raw).Some? && Decode(end.raw).value.pkgType == END && end.io.renames && end.io.badWrite.None?
  }

  /**
    End-to-end recovery. If for every batch, in order, at least as many different packets arrive as the batch
    has chunks (so at most 100 of the packets sent for it are missing or corrupted), among duplicates, late
    packets of earlier batches, repeated STARTs and datagrams that have nothing to do with the file, then
    the receiver publishes exactly the source.
  */
  lemma TolerableLossRecovers(
    libs: Libraries, src: Source, w: World, start: Arrival, arrivals: seq<Arrival>, segments: seq<seq<Event>>,
    end: Arrival)
    requires Sendable(libs, src) && w.state == FRESH && Assured(libs, Concat(segments), |src.data|)
    requires start.raw == EncodePacket(StartPacket(libs, src)) && start.io.open == Opened
    requires GoodDelivery(segments, |src.data|) && Carries(libs, src, arrivals, Concat(segments))
    requires EndsWell(end)
    ensures var w' := Run(libs, w, [start] + arrivals + [end]);
            && w'.state == FRESH && IsPublished(w'.files, src.path, src.data)
            && SameElsewhere(w'.files, w.files, src.path)
            && w'.stats.filesTransferred == w.stats.filesTransferred + 1
            && w'.stats.filesFailed == w.stats.filesFailed
  {
    hide Run, Sendable, Carries, Decode, TrackAll, GoodDelivery, Filled, EncodePacket, BatchCount, Enough, Concat,
      SameElsewhere, IsPublished, IsFailed, Assured;
    TransferExact(libs, src, w, start, arrivals, Concat(segments), end);
    GoodOutcome(segments, src.data);
  }

  /** What a good delivery comes to. */
  lemma GoodOutcome(segments: seq<seq<Event>>, data: Bytes)
    requires GoodDelivery(segments, |data|)
    ensures var t := TrackAll(NOTHING_YET, Concat(segments), |data|);
            Complete(t, |data|) && Filled(data, Reached(t.batch + 1, |data|)) == data
  {
    hide TrackAll, GoodDelivery, Filled, BatchCount, Enough, Concat;
    GoodDeliveryCompletes(segments, |data|);
    BatchSizes(TrackAll(NOTHING_YET, Concat(segments), |data|).batch, |data|);
    FilledIsSource(data, |data|);
  }

  /**
    The promise of the error correction: when at most 100 of the packets sent for each batch are lost or
    corrupted, whichever they are, and the rest arrive batch by batch, in any order and any number of times,
    the receiver publishes exactly the source.
  */
  lemma HundredLostPerBatchRecovers(
    libs: Libraries, src: Source, w: World, start: Arrival, arrivals: seq<Arrival>, segments: seq<seq<Event>>,
    losses: seq<Loss>, end: Arrival)
    requires Reliable(libs) && Sendable(libs, src) && w.state == FRESH
    requires start.raw == EncodePacket(StartPacket(libs, src)) && start.io.open == Opened
    requires LossyDelivery(segments, |src.data|, losses) && Carries(libs, src, arrivals, Concat(segments))
    requires EndsWell(end)
    ensures var w' := Run(libs, w, [start] + arrivals + [end]);
            && w'.state == FRESH && IsPublished(w'.files, src.path, src.data)
            && SameElsewhere(w'.files, w.files, src.path)
            && w'.stats.filesTransferred == w.stats.filesTransferred + 1
            && w'.stats.filesFailed == w.stats.filesFailed
  {
    assert Assured(libs, Concat(segments), |src.data|);
    hide *;
    LossyIsGood(segments, |src.data|, losses);
    TolerableLossRecovers(libs, src, w, start, arrivals, segments, end);
  }

  /**
    Without loss of chunks nothing is assumed of the code: when every chunk arrives, batch by batch, whatever
    becomes of the parity, exactly the source is published, for any encoder and any decoder.
  */
  lemma EveryChunkArrives(
    libs: Libraries, src: Source, w: World, start: Arrival, arrivals: seq<Arrival>, segments: seq<seq<Event>>,
    end: Arrival)
    requires Sendable(libs, src) && w.state == FRESH
    requires start.raw == EncodePacket(StartPacket(libs, src)) && start.io.open == Opened
    requires FullDelivery(segments, |src.data|) && Carries(libs, src, arrivals, Concat(segments))
    requires EndsWell(end)
    ensures var w' := Run(libs, w, [start] + arrivals + [end]);
            && w'.state == FRESH && IsPublished(w'.files, src.path, src.data)
            && SameElsewhere(w'.files, w.files, src.path)
            && w'.stats.filesTransferred == w.stats.filesTransferred + 1
            && w'.stats.filesFailed == w.stats.filesFailed
  {
    FullIsAssured(libs, segments, |src.data|);
    hide *;
    FullIsGood(segments, |src.data|);
    TolerableLossRecovers(libs, src, w, start, arrivals, segments, end);
  }

  lemma FullIsAssured(libs: Libraries, segments: seq<seq<Event>>, fileSize: nat)
    requires FullDelivery(segments, fileSize)
    ensures Assured(libs, Concat(segments), fileSize)
  {
    hide FullDelivery, Reliable, NeverDecodes, NeedsDecoder, TrackAll, Concat;
    FullDeliveryNeverDecodes(segments, fileSize);
  }

  // ---- Many files ----

  /** One file on its way: START, its packets, END and whatever follows until the next START. */
  datatype Delivery = Delivery(
    src: Source, start: Arrival, arrivals: seq<Arrival>, segments: seq<seq<Event>>, end: Arrival, after: seq<Arrival>)

  /** Anything but a START. */
  predicate NotStart(raw: Bytes) {
    var p := Decode(raw);
    p.Some? ==> p.value.pkgType != START
  }

  /** Whatever happens to its packets, the file is opened and END comes. */
  ghost predicate Arrives(libs: Libraries, d: Delivery) {
    && Sendable(libs, d.src) && Assured(libs, Concat(d.segments), |d.src.data|)
    && d.start.raw == EncodePacket(StartPacket(libs, d.src)) && d.start.io.open == Opened
    && Carries(libs, d.src, d.arrivals, Concat(d.segments))
    && Decode(d.end.raw).Some? && Decode(d.end.raw).value.pkgType == END && d.end.io.badWrite.None?
    && (forall k :: 0 <= k < |d.after| ==> NotStart(d.after[k].raw))
  }

  ghost predicate ArrivesWell(libs: Libraries, d: Delivery) {
    Arrives(libs, d) && GoodDelivery(d.segments, |d.src.data|) && d.end.io.renames
  }

  /** How far the packets of the delivery go. */
  function TrackerOf(d: Delivery): Tracker {
    TrackAll(NOTHING_YET, Concat(d.segments), |d.src.data|)
  }

  ghost predicate Succeeds(d: Delivery) {
    Complete(TrackerOf(d), |d.src.data|) && d.end.io.renames
  }

  /** The outcome of a delivery: the file as far as it goes, or the marker. */
  ghost predicate HasOutcome(d: Delivery, files: Files) {
    var reached := Reached(TrackerOf(d).batch + 1, |d.src.data|);
    if Succeeds(d) then IsPublished(files, d.src.path, Filled(d.src.data, reached))
    else IsFailed(files, d.src.path)
  }

  function ArrivalsOf(d: Delivery): seq<Arrival> {
    [d.start] + d.arrivals + [d.end] + d.after
  }

  function AllArrivals(ds: seq<Delivery>): seq<Arrival> {
    if ds == [] then [] else AllArrivals(ds[..|ds| - 1]) + ArrivalsOf(ds[|ds| - 1])
  }

  ghost function Successes(ds: seq<Delivery>): (n: nat)
    ensures n <= |ds|
  {
    if ds == [] then 0 else Successes(ds[..|ds| - 1]) + if Succeeds(ds[|ds| - 1]) then 1 else 0
  }

  /** File names, none of them of the form the receiver uses for itself. */
  predicate PlainNames(ds: seq<Delivery>) {
    forall k :: 0 <= k < |ds| ==> PlainName(ds[k].src.path)
  }

  /** No later delivery is of the same path. */
  predicate IsLatest(ds: seq<Delivery>, k: nat)
    requires k < |ds|
  {
    forall j :: k < j < |ds| ==> ds[j].src.path != ds[k].src.path
  }

  /** Between transfers, everything but START is ignored. */
  lemma {:induction false} IdleIgnores(libs: Libraries, w: World, after: seq<Arrival>)
    requires w.state == FRESH && forall k :: 0 <= k < |after| ==> NotStart(after[k].raw)
    ensures var w' := Run(libs, w, after);
            w'.state == FRESH && w'.files == w.files && SameCounts(w'.stats, w.stats)
    decreases |after|
  {
    hide Decode;
    if after != [] {
      var w' := Receive(libs, w, after[0]);
      assert NotStart(after[0].raw);
      assert w'.state == FRESH && w'.files == w.files && SameCounts(w'.stats, w.stats);
      hide Receive;
      IdleIgnores(libs, w', after[1..]);
    }
  }

  lemma OneOutcome(libs: Libraries, w: World, d: Delivery)
    requires Arrives(libs, d) && w.state == FRESH
    ensures var w' := Run(libs, w, ArrivalsOf(d));
            && w'.state == FRESH && HasOutcome(d, w'.files) && SameElsewhere(w'.files, w.files, d.src.path)
            && w'.stats.filesTransferred == w.stats.filesTransferred + (if Succeeds(d) then 1 else 0)
            && w'.stats.filesFailed == w.stats.filesFailed + if Succeeds(d) then 0 else 1
  {
    hide Run, Sendable, Assured, Carries, Decode, NotStart, EncodePacket, IsPublished, IsFailed, SameElsewhere,
      TrackAll, Complete, Filled, Reached, Concat;
    TransferExact(libs, d.src, w, d.start, d.arrivals, Concat(d.segments), d.end);
    RunConcat(libs, w, [d.start] + d.arrivals + [d.end], d.after);
    IdleIgnores(libs, Run(libs, w, [d.start] + d.arrivals + [d.end]), d.after);
  }

  /** Every path has the outcome of its latest delivery. */
  ghost predicate LatestOutcomes(ds: seq<Delivery>, files: Files) {
    forall k :: 0 <= k < |ds| && IsLatest(ds, k) ==> HasOutcome(ds[k], files)
  }

  /** Files of other plain paths do not touch the outcome. */
  lemma OutcomeStays(d: Delivery, path: string, before: Files, after: Files)
    requires PlainName(d.src.path) && PlainName(path) && d.src.path != path
    requires HasOutcome(d, before) && SameElsewhere(after, before, path)
    ensures HasOutcome(d, after)
  {
    hide Partial, FailedMarker, PlainName, Succeeds, Filled, Reached, TrackerOf;
    NamesOfTwoFiles(d.src.path, path);
  }

  lemma OneMoreOutcome(ds: seq<Delivery>, before: Files, after: Files)
    requires ds != [] && PlainNames(ds) && LatestOutcomes(ds[..|ds| - 1], before)
    requires HasOutcome(ds[|ds| - 1], after) && SameElsewhere(after, before, ds[|ds| - 1].src.path)
    ensures LatestOutcomes(ds, after)
  {
    hide PlainName, HasOutcome, SameElsewhere;
    var n := |ds| - 1;
    forall k | 0 <= k < |ds| && IsLatest(ds, k) ensures HasOutcome(ds[k], after) {
      if k < n {
        assert IsLatest(ds[..n], k);
        assert ds[n].src.path != ds[k].src.path;
        assert HasOutcome(ds[..n][k], before);
        OutcomeStays(ds[k], ds[n].src.path, before, after);
      }
    }
  }

  /**
    Any list of files sent one after another, whatever happens to their packets: every path has exactly the
    outcome of its latest delivery, and every delivery is counted as transferred or as failed.
  */
  lemma {:induction false} EveryDeliveryIsDecided(libs: Libraries, w: World, ds: seq<Delivery>)
    requires w.state == FRESH && PlainNames(ds)
    requires forall k :: 0 <= k < |ds| ==> Arrives(libs, ds[k])
    ensures var w' := Run(libs, w, AllArrivals(ds));
            && w'.state == FRESH && LatestOutcomes(ds, w'.files)
            && w'.stats.filesTransferred == w.stats.filesTransferred + Successes(ds)
            && w'.stats.filesFailed == w.stats.filesFailed + |ds| - Successes(ds)
    decreases |ds|
  {
    hide Run, Arrives, ArrivalsOf, PlainName, HasOutcome, SameElsewhere, LatestOutcomes, Succeeds;
    if ds == [] {
      RunNothing(libs, w);
      NoOutcome(w.files);
    } else {
      var n := |ds| - 1;
      var before := ds[..n];
      EveryDeliveryIsDecided(libs, w, before);
      RunConcat(libs, w, AllArrivals(before), ArrivalsOf(ds[n]));
      OneOutcome(libs, Run(libs, w, AllArrivals(before)), ds[n]);
      OneMoreOutcome(ds, Run(libs, w, AllArrivals(before)).files, Run(libs, w, AllArrivals(ds)).files);
    }
  }

  lemma NoOutcome(files: Files)
    ensures LatestOutcomes([], files)
  {
  }

  lemma {:induction false} AllSucceed(libs: Libraries, ds: seq<Delivery>)
    requires forall k :: 0 <= k < |ds| ==> ArrivesWell(libs, ds[k])
    ensures Successes(ds) == |ds|
  {
    hide Arrives, GoodDelivery, Succeeds;
    if ds != [] {
      AllSucceed(libs, ds[..|ds| - 1]);
      WellIsSuccess(libs, ds[|ds| - 1]);
    }
  }

  lemma WellIsSuccess(libs: Libraries, d: Delivery)
    requires ArrivesWell(libs, d)
    ensures Succeeds(d) && Filled(d.src.data, Reached(TrackerOf(d).batch + 1, |d.src.data|)) == d.src.data
  {
    hide Arrives, GoodDelivery, TrackAll, Complete, Filled, Reached, Concat;
    GoodOutcome(d.segments, d.src.data);
  }

  /** Every path holds the latest file that was delivered under it. */
  ghost predicate LatestPublished(ds: seq<Delivery>, files: Files) {
    forall k :: 0 <= k < |ds| && IsLatest(ds, k) ==> IsPublished(files, ds[k].src.path, ds[k].src.data)
  }

  /**
    Any list of files sent one after another, each with tolerable loss, is published file by file, byte for
    byte. A path may come again: then its latest file is there.
  */
  lemma EveryFileRecovers(libs: Libraries, w: World, ds: seq<Delivery>)
    requires w.state == FRESH && PlainNames(ds)
    requires forall k :: 0 <= k < |ds| ==> ArrivesWell(libs, ds[k])
    ensures var w' := Run(libs, w, AllArrivals(ds));
            && w'.state == FRESH && LatestPublished(ds, w'.files)
            && w'.stats.filesTransferred == w.stats.filesTransferred + |ds|
            && w'.stats.filesFailed == w.stats.filesFailed
  {
    hide Run, Arrives, GoodDelivery, AllArrivals, PlainNames, IsPublished, IsFailed, Succeeds, Successes, Filled,
      Reached, TrackerOf, IsLatest;
    EveryDeliveryIsDecided(libs, w, ds);
    AllSucceed(libs, ds);
    var files := Run(libs, w, AllArrivals(ds)).files;
    forall k | 0 <= k < |ds| && IsLatest(ds, k) ensures IsPublished(files, ds[k].src.path, ds[k].src.data) {
      assert HasOutcome(ds[k], files);
      WellIsSuccess(libs, ds[k]);
    }
  }

  lemma RunNothing(libs: Libraries, w: World)
    ensures Run(libs, w, []) == w
  {
  }

  // ---- A published file that is not the source ----

  const TWO_BATCHES: Bytes := seq(BATCH_BYTES + 1, _ => 1)

  /** Every chunk of the first batch, in order, and nothing of the second. */
  function FirstChunks(n: nat): seq<Event> {
    seq(n, k requires 0 <= k => ChunkOf(k))
  }

  lemma OneMoreChunk(n: nat, fileSize: nat)
    requires n < BATCH_DATA_CHUNKS
    ensures Track(Tracker(0, Interval(0, n), {}, false), ChunkOf(n), fileSize) ==
            Tracker(0, Interval(0, n + 1), {}, false)
  {
    hide Enough;
    assert BatchForData(n) == 0;
    assert Interval(0, n) + {n} == Interval(0, n + 1);
  }

  lemma TrackOne(t: Tracker, e: Event, fileSize: nat)
    ensures TrackAll(t, [e], fileSize) == Track(t, e, fileSize)
  {
    hide Track;
    assert [e][1..] == [];
  }

  lemma NoChunksTracked(fileSize: nat)
    ensures TrackAll(NOTHING_YET, FirstChunks(0), fileSize) == Tracker(0, Interval(0, 0), {}, false)
  {
  }

  lemma {:induction false} FirstChunksTracked(n: nat, fileSize: nat)
    requires n <= BATCH_DATA_CHUNKS
    ensures TrackAll(NOTHING_YET, FirstChunks(n), fileSize) == Tracker(0, Interval(0, n), {}, false)
  {
    hide TrackAll, Track, Interval;
    if n == 0 {
      NoChunksTracked(fileSize);
    } else {
      FirstChunksTracked(n - 1, fileSize);
      assert FirstChunks(n) == FirstChunks(n - 1) + [ChunkOf(n - 1)];
      TrackConcat(NOTHING_YET, FirstChunks(n - 1), [ChunkOf(n - 1)], fileSize);
      TrackOne(TrackAll(NOTHING_YET, FirstChunks(n - 1), fileSize), ChunkOf(n - 1), fileSize);
      OneMoreChunk(n - 1, fileSize);
    }
  }

  lemma FirstBatchComplete()
    ensures var t := TrackAll(NOTHING_YET, FirstChunks(BATCH_DATA_CHUNKS), |TWO_BATCHES|);
            Complete(t, |TWO_BATCHES|) && !NeedsDecoder(t, |TWO_BATCHES|)
            && Reached(t.batch + 1, |TWO_BATCHES|) == BATCH_BYTES
  {
    hide TrackAll, FirstChunks, Interval;
    FirstChunksTracked(BATCH_DATA_CHUNKS, |TWO_BATCHES|);
  }

  /** The decoder has no part in it. */
  lemma FirstBatchIsAssured(libs: Libraries)
    ensures Assured(libs, FirstChunks(BATCH_DATA_CHUNKS), |TWO_BATCHES|)
  {
    hide TrackAll, NeverDecodes, Reliable, NeedsDecoder, Complete, BatchDataSize;
    FirstBatchComplete();
    SegmentNeverDecodes(NOTHING_YET, FirstChunks(BATCH_DATA_CHUNKS), 0, |TWO_BATCHES|);
  }

  lemma TailIsLost()
    ensures var content := Filled(TWO_BATCHES, BATCH_BYTES);
            |content| == |TWO_BATCHES| && content[BATCH_BYTES] == 0 && content != TWO_BATCHES
  {
    assert TWO_BATCHES[BATCH_BYTES] == 1;
  }

  lemma EndIsEnd(libs: Libraries, src: Source)
    requires Sendable(libs, src)
    ensures var p := Decode(EncodePacket(EndPacket(libs, src))); p.Some? && p.value.pkgType == END
  {
    hide Decode, EncodePacket;
    RoundTripFits(EndPacket(libs, src));
  }

  /**
    When every packet of the last batch is lost, the file is still published, and it is not the source: the
    one byte of the second batch has become zero. This holds whatever the code does.
  */
  lemma LostTailIsPublished(libs: Libraries, path: string, w: World, io: Io, arrivals: seq<Arrival>)
    requires Sendable(libs, Source(path, TWO_BATCHES)) && w.state == FRESH
    requires io.open == Opened && io.renames && io.badWrite.None?
    requires Carries(libs, Source(path, TWO_BATCHES), arrivals, FirstChunks(BATCH_DATA_CHUNKS))
    ensures var src := Source(path, TWO_BATCHES);
            var start := Arrival(EncodePacket(StartPacket(libs, src)), io);
            var end := Arrival(EncodePacket(EndPacket(libs, src)), io);
            var files := Run(libs, w, [start] + arrivals + [end]).files;
            path in files && files[path] != src.data && |files[path]| == |src.data| && files[path][BATCH_BYTES] == 0
  {
    hide Run, Sendable, Carries, Decode, TrackAll, Reached, EncodePacket, SameElsewhere, IsFailed, Complete,
      FirstChunks, StartPacket, EndPacket, Filled, Assured, NeedsDecoder;
    var src := Source(path, TWO_BATCHES);
    var start := Arrival(EncodePacket(StartPacket(libs, src)), io);
    var end := Arrival(EncodePacket(EndPacket(libs, src)), io);
    EndIsEnd(libs, src);
    FirstBatchComplete();
    FirstBatchIsAssured(libs);
    TailIsLost();
    TransferExact(libs, src, w, start, arrivals, FirstChunks(BATCH_DATA_CHUNKS), end);
  }
}
