/**
  The receiver agrees with the tracker at every step of a transfer, so the outcome of the whole transfer,
  published content included, is a function of which packets arrived in which order.
 */
module Exactness {
  import opened Basics
  import opened Batches
  import opened Wire
  import opened Erasure
  import opened Receiver
  import opened Accounting
  import opened Protocol
  import opened Tracking
  import opened Transfer

  // ---- Moving to a later batch ----

  /** An empty batch that is not the last cannot be finalized. */
  lemma EmptyBatchFails(libs: Libraries, s: State, files: Files, bad: Option<BadWrite>)
    requires s.dataBuffer == map[] && s.parityBuffer == map[] && CurrentDataSize(s) > 0
    requires s.parityPerBatch > 0
    ensures !FinalizeCurrentBatch(libs, s, files, bad).ok
  {
  }

  /** The receiver moves on exactly when the next batch is the one asked for and this one is complete. */
  lemma AdvanceExact(libs: Libraries, src: Source, s: State, files: Files, t: Tracker, target: nat)
    requires !t.failed && Decodable(libs, t, |src.data|) && Steady(libs, src, s, files, t)
    requires t.batch < target < BatchCount(|src.data|)
    ensures var (s', files') := AdvanceToBatch(libs, s, files, target, None);
            if target == t.batch + 1 && Enough(t, |src.data|) then
              s' == ClearBuffers(s).(currentBatch := target)
              && files' == files[Partial(src.path) := Filled(src.data, Reached(target, |src.data|))]
            else s'.failed && s'.filePath == s.filePath
  {
    hide FinalizeCurrentBatch, BatchCount, BatchDataSize, Reached, Filled, BuffersMatch, Decodable, Enough;
    FinalizeExact(libs, src, s, files, t);
    FinalizeState(libs, s, files, None);
    var done := FinalizeCurrentBatch(libs, s, files, None);
    if done.ok && target > t.batch + 1 {
      var next := done.state.(currentBatch := t.batch + 1);
      BatchSizes(t.batch + 1, |src.data|);
      EmptyBatchFails(libs, next, done.files, None);
      FinalizeState(libs, next, done.files, None);
    }
  }

  lemma FinalizeState(libs: Libraries, s: State, files: Files, bad: Option<BadWrite>)
    ensures FinalizeCurrentBatch(libs, s, files, bad).state.filePath == s.filePath
  {
  }

  // ---- One datagram ----

  /** A datagram the receiver ignores changes neither the transfer nor the directory. */
  lemma NoiseIgnored(libs: Libraries, src: Source, w: World, a: Arrival)
    requires w.state.filePath == Some(src.path)
    requires !w.state.failed ==> w.state.pathHash == Some(PathHash(libs, src))
    requires Ignored(libs, src, a.raw)
    ensures var w' := Receive(libs, w, a); w'.state == w.state && w'.files == w.files
  {
  }

  /** After moving on, the transfer is steady at the new batch with nothing of it buffered yet. */
  lemma AdvanceSteady(libs: Libraries, src: Source, s: State, files: Files, t: Tracker, target: nat)
    requires !t.failed && Decodable(libs, t, |src.data|) && Steady(libs, src, s, files, t)
    requires t.batch < target < BatchCount(|src.data|)
    ensures var (s', files') := AdvanceToBatch(libs, s, files, target, None);
            if target == t.batch + 1 && Enough(t, |src.data|) then
              BuffersFit(s') && Steady(libs, src, s', files', Tracker(target, {}, {}, false))
            else s'.failed && s'.filePath == s.filePath
  {
    hide AdvanceToBatch, BatchCount, Reached, Filled, Decodable, Enough, BuffersFit;
    AdvanceExact(libs, src, s, files, t, target);
    if target == t.batch + 1 && Enough(t, |src.data|) {
      EmptyBuffersFit(AdvanceToBatch(libs, s, files, target, None).0);
    }
  }

  lemma BufferChunk(libs: Libraries, src: Source, s: State, stats: Stats, files: Files, t: Tracker, c: nat)
    requires BuffersFit(s) && Steady(libs, src, s, files, t)
    requires c < TotalChunks(|src.data|) && BatchForData(c) == t.batch
    ensures Steady(libs, src, BufferData(s, stats, DataPacket(libs, src, c)).0, files, Seen(t, ChunkOf(c)))
  {
    hide Reached, Filled, BufferData, TotalChunks, BatchCount, BuffersFit;
    BufferDataKeeps(s, stats, DataPacket(libs, src, c));
  }

  lemma BufferShard(libs: Libraries, src: Source, s: State, files: Files, t: Tracker, i: nat)
    requires BuffersFit(s) && Steady(libs, src, s, files, t)
    requires i < |ParityShards(libs, src.data, t.batch)| && i < BATCH_PARITY_CHUNKS
    requires |ParityShards(libs, src.data, t.batch)[i]| == SHARD_SIZE
    ensures Steady(libs, src, BufferParity(s, ParityPacket(libs, src, t.batch, i), i), files,
                   Seen(t, ParityOf(t.batch, i)))
  {
    hide Reached, Filled, BufferParity, TotalChunks, BatchCount, BuffersFit, ParityShards;
    BufferParityKeeps(s, ParityPacket(libs, src, t.batch, i), i);
  }

  // ---- Chunks and parity shards ----

  /** A chunk of the file, whatever batch it belongs to. */
  lemma DataAgrees(libs: Libraries, src: Source, w: World, t: Tracker, c: nat)
    requires Agrees(libs, src, w, t) && c < TotalChunks(|src.data|)
    requires Closes(t, ChunkOf(c)) ==> Decodable(libs, t, |src.data|)
    ensures var w' := ReceiveData(libs, w, DataPacket(libs, src, c), None);
            var t' := Track(t, ChunkOf(c), |src.data|);
            && w'.state.filePath == Some(src.path)
            && if t'.failed then w'.state.failed else Steady(libs, src, w'.state, w'.files, t')
  {
    if !t.failed {
      NumbersAgree(0, 0, c, |src.data|);
      DataSteady(libs, src, w, t, c);
    }
  }

  lemma DataSteady(libs: Libraries, src: Source, w: World, t: Tracker, c: nat)
    requires BuffersFit(w.state) && !t.failed && Steady(libs, src, w.state, w.files, t)
    requires Closes(t, ChunkOf(c)) ==> Decodable(libs, t, |src.data|)
    requires c < TotalChunks(|src.data|) && BatchForData(c) < BatchCount(|src.data|)
    ensures var w' := ReceiveData(libs, w, DataPacket(libs, src, c), None);
            var t' := Track(t, ChunkOf(c), |src.data|);
            && w'.state.filePath == Some(src.path)
            && if t'.failed then w'.state.failed else Steady(libs, src, w'.state, w'.files, t')
  {
    assert IsChunkValid(libs, DataPacket(libs, src, c), w.state, DATA);
    hide BufferData, BuffersFit, TotalChunks, BatchCount, BatchForData, IsChunkValid, Reached, Filled, Enough,
      Decodable, FinalizeCurrentBatch, Chunk, BuffersMatch;
    if BatchForData(c) > t.batch {
      DataOfLaterBatch(libs, src, w, t, c);
    } else if BatchForData(c) == t.batch {
      BufferChunk(libs, src, w.state, w.stats, w.files, t, c);
    }
  }

  lemma DataOfLaterBatch(libs: Libraries, src: Source, w: World, t: Tracker, c: nat)
    requires BuffersFit(w.state) && !t.failed && Steady(libs, src, w.state, w.files, t)
    requires Decodable(libs, t, |src.data|)
    requires c < TotalChunks(|src.data|) && t.batch < BatchForData(c) < BatchCount(|src.data|)
    requires IsChunkValid(libs, DataPacket(libs, src, c), w.state, DATA)
    ensures var w' := ReceiveData(libs, w, DataPacket(libs, src, c), None);
            var t' := Track(t, ChunkOf(c), |src.data|);
            && w'.state.filePath == Some(src.path)
            && if t'.failed then w'.state.failed else Steady(libs, src, w'.state, w'.files, t')
  {
    hide BufferData, BuffersFit, TotalChunks, BatchCount, BatchForData, IsChunkValid, Reached, Filled, Enough,
      Decodable, AdvanceToBatch, Chunk, BuffersMatch;
    var b := BatchForData(c);
    var (s, files) := AdvanceToBatch(libs, w.state, w.files, b, None);
    AdvanceSteady(libs, src, w.state, w.files, t, b);
    if !s.failed {
      BufferChunk(libs, src, s, w.stats, files, Tracker(b, {}, {}, false), c);
    }
  }

  /** A parity shard of the file, whatever batch it belongs to. */
  lemma ParityAgrees(libs: Libraries, src: Source, w: World, t: Tracker, b: nat, i: nat)
    requires Agrees(libs, src, w, t) && ValidEvent(libs, src, ParityOf(b, i))
    requires Closes(t, ParityOf(b, i)) ==> Decodable(libs, t, |src.data|)
    ensures var w' := ReceiveParity(libs, w, ParityPacket(libs, src, b, i), None);
            var t' := Track(t, ParityOf(b, i), |src.data|);
            && w'.state.filePath == Some(src.path)
            && if t'.failed then w'.state.failed else Steady(libs, src, w'.state, w'.files, t')
  {
    if !t.failed {
      NumbersAgree(b, i, 0, |src.data|);
      ParitySteady(libs, src, w, t, b, i);
    }
  }

  lemma ParitySteady(libs: Libraries, src: Source, w: World, t: Tracker, b: nat, i: nat)
    requires BuffersFit(w.state) && !t.failed && Steady(libs, src, w.state, w.files, t)
    requires Closes(t, ParityOf(b, i)) ==> Decodable(libs, t, |src.data|)
    requires b < BatchCount(|src.data|) && i < BATCH_PARITY_CHUNKS
    requires i < |ParityShards(libs, src.data, b)| && |ParityShards(libs, src.data, b)[i]| == SHARD_SIZE
    ensures var w' := ReceiveParity(libs, w, ParityPacket(libs, src, b, i), None);
            var t' := Track(t, ParityOf(b, i), |src.data|);
            && w'.state.filePath == Some(src.path)
            && if t'.failed then w'.state.failed else Steady(libs, src, w'.state, w'.files, t')
  {
    var p := ParityPacket(libs, src, b, i);
    NumbersAgree(b, i, 0, |src.data|);
    assert BatchForParity(p.count) == b && p.count % BATCH_PARITY_CHUNKS == i;
    assert IsChunkValid(libs, p, w.state, PARITY);
    hide BufferParity, BuffersFit, BatchCount, BatchForParity, IsChunkValid, Reached, Filled, Enough, Decodable,
      FinalizeCurrentBatch, BuffersMatch, ParityShards;
    if b > t.batch {
      ParityOfLaterBatch(libs, src, w, t, b, i);
    } else if b == t.batch {
      BufferShard(libs, src, w.state, w.files, t, i);
    }
  }

  /** A valid shard of a later batch: first the batches before it are closed, then it is buffered. */
  lemma ParityPasses(libs: Libraries, w: World, p: Packet, b: nat, bad: Option<BadWrite>)
    requires !w.state.failed && IsChunkValid(libs, p, w.state, PARITY) && BatchForParity(p.count) == b
    ensures var (s, files) := AdvanceToBatch(libs, w.state, w.files, b, bad);
            ReceiveParity(libs, w, p, bad) ==
              if s.failed || b != s.currentBatch then World(s, w.stats, files)
              else World(BufferParity(s, p, p.count % BATCH_PARITY_CHUNKS), w.stats, files)
  {
    hide AdvanceToBatch, BufferParity, IsChunkValid, BatchForParity;
  }

  lemma ParityNumber(libs: Libraries, src: Source, b: nat, i: nat)
    requires i < BATCH_PARITY_CHUNKS && i < |ParityShards(libs, src.data, b)|
    ensures var count := ParityPacket(libs, src, b, i).count;
            BatchForParity(count) == b && count % BATCH_PARITY_CHUNKS == i
  {
    hide ParityShards;
    NumbersAgree(b, i, 0, 0);
  }

  lemma ParityOfLaterBatch(libs: Libraries, src: Source, w: World, t: Tracker, b: nat, i: nat)
    requires BuffersFit(w.state) && !t.failed && Steady(libs, src, w.state, w.files, t)
    requires Decodable(libs, t, |src.data|)
    requires t.batch < b < BatchCount(|src.data|) && i < BATCH_PARITY_CHUNKS
    requires i < |ParityShards(libs, src.data, b)| && |ParityShards(libs, src.data, b)[i]| == SHARD_SIZE
    requires IsChunkValid(libs, ParityPacket(libs, src, b, i), w.state, PARITY)
    ensures var w' := ReceiveParity(libs, w, ParityPacket(libs, src, b, i), None);
            var t' := Track(t, ParityOf(b, i), |src.data|);
            && w'.state.filePath == Some(src.path)
            && if t'.failed then w'.state.failed else Steady(libs, src, w'.state, w'.files, t')
  {
    hide ParityPacket, BufferParity, BuffersFit, BatchCount, BatchForParity, IsChunkValid, Reached, Filled,
      Enough, Decodable, AdvanceToBatch, BuffersMatch, ParityShards, ReceiveParity;
    var p := ParityPacket(libs, src, b, i);
    ParityNumber(libs, src, b, i);
    ParityPasses(libs, w, p, b, None);
    var (s, files) := AdvanceToBatch(libs, w.state, w.files, b, None);
    AdvanceSteady(libs, src, w.state, w.files, t, b);
    if !s.failed {
      BufferShard(libs, src, s, files, Tracker(b, {}, {}, false), i);
    }
  }

  // ---- Any datagram ----

  /** During a transfer, a readable chunk or shard goes to the handler of its type. */
  lemma GoesToHandler(libs: Libraries, w: World, a: Arrival, p: Packet)
    requires Decode(a.raw) == Some(p) && w.state.filePath.Some?
    ensures p.pkgType == DATA ==> Receive(libs, w, a) == ReceiveData(libs, w, p, a.io.badWrite)
    ensures p.pkgType == PARITY ==> Receive(libs, w, a) == ReceiveParity(libs, w, p, a.io.badWrite)
  {
    hide ReceiveData, ReceiveParity, Decode;
  }

  /** One arrival, of whatever kind: the receiver and the tracker still agree. */
  lemma EventAgrees(libs: Libraries, src: Source, w: World, t: Tracker, e: Event, a: Arrival)
    requires Sendable(libs, src) && Agrees(libs, src, w, t)
    requires ValidEvent(libs, src, e) && a.raw == RawOf(libs, src, e) && a.io.badWrite.None?
    requires Closes(t, e) ==> Decodable(libs, t, |src.data|)
    ensures Agrees(libs, src, Receive(libs, w, a), Track(t, e, |src.data|))
  {
    ReceiveKeeps(libs, w, a);
    hide WellFormed, Decode, ReceiveData, ReceiveParity, Receive, Ignored, Decodable, EncodePacket, ParityShards,
      TotalChunks, BatchCount, Chunk, BuffersMatch, Reached, Filled, Enough;
    match e {
      case ChunkOf(c) =>
        ChunkCountFits(c, |src.data|);
        RoundTripFits(DataPacket(libs, src, c));
        DataAgrees(libs, src, w, t, c);
        GoesToHandler(libs, w, a, DataPacket(libs, src, c));
      case ParityOf(b, i) =>
        ParityCountFits(b, i, |src.data|);
        RoundTripFits(ParityPacket(libs, src, b, i));
        ParityAgrees(libs, src, w, t, b, i);
        GoesToHandler(libs, w, a, ParityPacket(libs, src, b, i));
      case Noise(_) =>
        NoiseIgnored(libs, src, w, a);
    }
  }

  lemma ChunkCountFits(c: nat, fileSize: nat)
    requires c < TotalChunks(fileSize) && fileSize < COUNT_LIMIT
    ensures c < COUNT_LIMIT
  {
  }

  lemma ParityCountFits(b: nat, i: nat, fileSize: nat)
    requires b < BatchCount(fileSize) && i < BATCH_PARITY_CHUNKS && fileSize < COUNT_LIMIT
    ensures b * BATCH_PARITY_CHUNKS + i < COUNT_LIMIT
  {
  }

  // ---- What a transfer leaves alone ----

  /** The two directories hold the same files apart from the names that belong to `path`. */
  ghost predicate SameElsewhere(a: Files, b: Files, path: string) {
    forall n :: n != path && n != Partial(path) && n != FailedMarker(path) ==>
      (n in a <==> n in b) && (n in a ==> a[n] == b[n])
  }

  ghost predicate SameCounts(a: Stats, b: Stats) {
    a.filesTransferred == b.filesTransferred && a.filesFailed == b.filesFailed
  }

  lemma DataFrame(libs: Libraries, w: World, p: Packet, bad: Option<BadWrite>)
    requires WellFormed(w) && w.state.filePath.Some?
    ensures var w' := ReceiveData(libs, w, p, bad);
            SameElsewhere(w'.files, w.files, w.state.filePath.value) && SameCounts(w'.stats, w.stats)
  {
    hide BuffersFit, AdvanceToBatch, IsChunkValid;
    AdvanceKeeps(libs, w.state, w.files, BatchForData(p.count), bad);
  }

  lemma ParityFrame(libs: Libraries, w: World, p: Packet, bad: Option<BadWrite>)
    requires WellFormed(w) && w.state.filePath.Some?
    ensures var w' := ReceiveParity(libs, w, p, bad);
            SameElsewhere(w'.files, w.files, w.state.filePath.value) && SameCounts(w'.stats, w.stats)
  {
    hide BuffersFit, AdvanceToBatch, IsChunkValid;
    AdvanceKeeps(libs, w.state, w.files, BatchForParity(p.count), bad);
  }

  /** An event of a transfer touches only the partial file of that transfer and finishes nothing. */
  lemma EventFrame(libs: Libraries, src: Source, w: World, e: Event, a: Arrival)
    requires Sendable(libs, src) && WellFormed(w) && w.state.filePath == Some(src.path)
    requires ValidEvent(libs, src, e) && a.raw == RawOf(libs, src, e)
    ensures var w' := Receive(libs, w, a);
            SameElsewhere(w'.files, w.files, src.path) && SameCounts(w'.stats, w.stats)
  {
    hide WellFormed, Decode, ReceiveData, ReceiveParity, EncodePacket, ParityShards, TotalChunks, BatchCount, Chunk;
    match e {
      case ChunkOf(c) =>
        ChunkCountFits(c, |src.data|);
        RoundTripFits(DataPacket(libs, src, c));
        GoesToHandler(libs, w, a, DataPacket(libs, src, c));
        DataFrame(libs, w, DataPacket(libs, src, c), a.io.badWrite);
      case ParityOf(b, i) =>
        ParityCountFits(b, i, |src.data|);
        RoundTripFits(ParityPacket(libs, src, b, i));
        GoesToHandler(libs, w, a, ParityPacket(libs, src, b, i));
        ParityFrame(libs, w, ParityPacket(libs, src, b, i), a.io.badWrite);
      case Noise(raw) =>
        if Decode(raw).Some? {
          DataFrame(libs, w, Decode(raw).value, a.io.badWrite);
          ParityFrame(libs, w, Decode(raw).value, a.io.badWrite);
        }
    }
  }

  /** Any number of events: the receiver and the tracker agree at the end, and nothing else has changed. */
  lemma {:induction false} RunAgrees(
    libs: Libraries, src: Source, w: World, t: Tracker, arrivals: seq<Arrival>, events: seq<Event>)
    requires Sendable(libs, src) && Agrees(libs, src, w, t) && Carries(libs, src, arrivals, events)
    requires Reliable(libs) || NeverDecodes(t, events, |src.data|)
    ensures var w' := Run(libs, w, arrivals);
            && Agrees(libs, src, w', TrackAll(t, events, |src.data|))
            && SameElsewhere(w'.files, w.files, src.path) && SameCounts(w'.stats, w.stats)
    decreases |arrivals|
  {
    hide Receive, Sendable, Steady, WellFormed, Track, ValidEvent, RawOf, Reliable, NeedsDecoder, Closes;
    if arrivals != [] {
      EventAgrees(libs, src, w, t, events[0], arrivals[0]);
      EventFrame(libs, src, w, events[0], arrivals[0]);
      assert Carries(libs, src, arrivals[1..], events[1..]);
      RunAgrees(libs, src, Receive(libs, w, arrivals[0]), Track(t, events[0], |src.data|), arrivals[1..], events[1..]);
    }
  }
}
