/**
  One file, from START to END, under any loss, duplication and reordering of its packets and with any
  corrupted or foreign datagrams in between. The receiver agrees step by step with the byte-free tracker,
  and what it publishes is determined exactly.
 */
module Transfer {
  import opened Basics
  import opened Batches
  import opened Wire
  import opened Erasure
  import opened Receiver
  import opened Accounting
  import opened Protocol
  import opened Tracking

  /** What a caller must grant: a path the receiver accepts, and a size START can carry. */
  predicate Sendable(libs: Libraries, src: Source) {
    && AcceptsPath(libs, src.path)
    && libs.lossyUtf8(libs.utf8(src.path)) == src.path
    && |src.data| < COUNT_LIMIT
  }

  /**
    A datagram that says nothing about this file: unreadable, a chunk of another path or of a wrong size,
    a chunk whose payload does not have its hash, a repeated START, a UDP packet or an unknown type.
   */
  predicate Ignored(libs: Libraries, src: Source, raw: Bytes) {
    var decoded := Decode(raw);
    decoded.Some? ==>
      var p := decoded.value;
      && p.pkgType != END
      && (p.pkgType == START ==> libs.lossyUtf8(p.data) == src.path)
      && (p.pkgType == DATA || p.pkgType == PARITY ==>
            || p.pathHash != PathHash(libs, src)
            || libs.md5(p.data) != p.dataHash
            || (p.pkgType == DATA && !(1 <= |p.data| <= CHUNK_SIZE))
            || (p.pkgType == PARITY && |p.data| != SHARD_SIZE))
  }

  ghost predicate ValidEvent(libs: Libraries, src: Source, e: Event) {
    match e
    case ChunkOf(c) => c < TotalChunks(|src.data|)
    case ParityOf(b, i) =>
      && b < BatchCount(|src.data|) && i < BATCH_PARITY_CHUNKS
      && i < |ParityShards(libs, src.data, b)| && |ParityShards(libs, src.data, b)[i]| == SHARD_SIZE
    case Noise(raw) => Ignored(libs, src, raw)
  }

  /** The datagram of an event, byte for byte as the sender encodes it. */
  ghost function RawOf(libs: Libraries, src: Source, e: Event): Bytes
    requires ValidEvent(libs, src, e)
  {
    match e
    case ChunkOf(c) => EncodePacket(DataPacket(libs, src, c))
    case ParityOf(b, i) => EncodePacket(ParityPacket(libs, src, b, i))
    case Noise(raw) => raw
  }

  /** The arrivals are the datagrams of the events. */
  ghost predicate CarriesPackets(libs: Libraries, src: Source, arrivals: seq<Arrival>, events: seq<Event>) {
    && |arrivals| == |events|
    && forall k :: 0 <= k < |events| ==>
         ValidEvent(libs, src, events[k]) && arrivals[k].raw == RawOf(libs, src, events[k])
  }

  /** And no write fails while they are handled. */
  ghost predicate Carries(libs: Libraries, src: Source, arrivals: seq<Arrival>, events: seq<Event>) {
    && CarriesPackets(libs, src, arrivals, events)
    && forall k :: 0 <= k < |arrivals| ==> arrivals[k].io.badWrite.None?
  }

  // ---- The agreement ----

  /** A file of which the first `n` bytes are written and the rest are still zeros. */
  function Filled(data: Bytes, n: nat): (content: Bytes)
    requires n <= |data|
    ensures |content| == |data|
    ensures forall i :: 0 <= i < |data| ==> content[i] == if i < n then data[i] else 0
  {
    data[..n] + Zeros(|data| - n)
  }

  /** Everything in the buffer is a chunk of batch `b` as the sender read it. */
  ghost predicate ChunksMatch(dataBuffer: map<nat, Bytes>, data: Bytes, b: nat) {
    forall c :: c in dataBuffer ==>
      BatchForData(c) == b && c < TotalChunks(|data|) && dataBuffer[c] == Chunk(data, c)
  }

  /** The buffers hold exactly the tracked packets, with the sender's contents. */
  ghost predicate BuffersMatch(libs: Libraries, src: Source, s: State, t: Tracker) {
    && s.dataBuffer.Keys == t.data && s.parityBuffer.Keys == t.parity
    && ChunksMatch(s.dataBuffer, src.data, t.batch)
    && SomeOf(s.parityBuffer, ParityShards(libs, src.data, t.batch))
  }

  /** The in-flight transfer of `src` as START set it up, still sound, at batch `batch`. */
  ghost predicate InFlight(libs: Libraries, src: Source, s: State, files: Files, batch: nat) {
    && s.filePath == Some(src.path) && s.pathHash == Some(PathHash(libs, src))
    && s.fileSize == |src.data| && s.parityPerBatch == BATCH_PARITY_CHUNKS
    && s.currentBatch == batch && !s.failed
    && s.output == Some(Partial(src.path))
    && Partial(src.path) in files
    && files[Partial(src.path)] == Filled(src.data, Reached(batch, |src.data|))
  }

  /** A transfer that has not failed: the file up to the current batch, and the tracked packets of that batch. */
  ghost predicate Steady(libs: Libraries, src: Source, s: State, files: Files, t: Tracker) {
    && InFlight(libs, src, s, files, t.batch)
    && BuffersMatch(libs, src, s, t)
    && (t.batch == 0 || t.batch < BatchCount(|src.data|))
  }

  ghost predicate Agrees(libs: Libraries, src: Source, w: World, t: Tracker) {
    && WellFormed(w)
    && w.state.filePath == Some(src.path)
    && (if t.failed then w.state.failed else Steady(libs, src, w.state, w.files, t))
  }

  // ---- Writing a batch ----

  /** Writing the next bytes of the source where they belong fills the file that much further. */
  lemma WriteFills(data: Bytes, n: nat, m: nat)
    requires n <= m <= |data|
    ensures WriteAt(Filled(data, n), n, data[n..m]) == Filled(data, m)
  {
  }

  /** Chunk `i` of the batch would be written as the sender read it. */
  ghost predicate Rebuilds(s: State, restored: map<nat, Bytes>, data: Bytes, i: nat) {
    && BatchStart(s) + i < TotalChunks(|data|)
    && ChunkToWrite(s, restored, i) == Some(Chunk(data, BatchStart(s) + i))
  }

  /** One turn of the write loop: chunk `i`, written where the last one ended, fills the file to its own end. */
  lemma WriteChunkFills(s: State, restored: map<nat, Bytes>, data: Bytes, i: nat, from: nat, to: nat)
    requires s.fileSize == |data| && i < CurrentDataSize(s) && Rebuilds(s, restored, data, i)
    requires from == (BatchStart(s) + i) * CHUNK_SIZE <= |data| && to == Min(from + CHUNK_SIZE, |data|)
    ensures WriteChunks(s, restored, Filled(data, from), from, i, None)
              == WriteChunks(s, restored, Filled(data, to), to, i + 1, None)
  {
    var chunk := Chunk(data, BatchStart(s) + i);
    assert chunk == data[from..to];
    WriteFills(data, from, to);
    hide ChunkToWrite, ExpectedLen, Filled, WriteAt, Chunk, TotalChunks, CurrentDataSize;
  }

  lemma {:induction false} WriteChunksFills(s: State, restored: map<nat, Bytes>, data: Bytes, i: nat, from: nat)
    requires s.fileSize == |data| && i <= CurrentDataSize(s)
    requires forall j :: i <= j < CurrentDataSize(s) ==> Rebuilds(s, restored, data, j)
    requires from == Min((BatchStart(s) + i) * CHUNK_SIZE, |data|)
    ensures var to := Min((BatchStart(s) + CurrentDataSize(s)) * CHUNK_SIZE, |data|);
            WriteChunks(s, restored, Filled(data, from), from, i, None) == (true, Filled(data, to))
    decreases CurrentDataSize(s) - i
  {
    hide Rebuilds, ChunkToWrite, Filled, WriteAt, BatchStart, BatchDataSize;
    if i < CurrentDataSize(s) {
      assert Rebuilds(s, restored, data, i);
      ChunkStarts(s, restored, data, i);
      var to := Min(from + CHUNK_SIZE, |data|);
      NextChunkStart(BatchStart(s) + i, |data|);
      WriteChunkFills(s, restored, data, i, from, to);
      WriteChunksFills(s, restored, data, i + 1, to);
    }
  }

  lemma ChunkStarts(s: State, restored: map<nat, Bytes>, data: Bytes, i: nat)
    requires Rebuilds(s, restored, data, i)
    ensures (BatchStart(s) + i) * CHUNK_SIZE <= |data|
  {
    hide ChunkToWrite;
    ChunkPlacement(BatchStart(s) + i, |data|);
  }

  lemma NextChunkStart(c: nat, fileSize: nat)
    requires c * CHUNK_SIZE <= fileSize
    ensures Min(c * CHUNK_SIZE + CHUNK_SIZE, fileSize) == Min((c + 1) * CHUNK_SIZE, fileSize)
  {
  }

  /** Shifting a set of numbers does not change its size. */
  lemma {:induction false} ShiftSize(shifted: set<nat>, s: set<nat>, start: nat)
    requires forall x :: x in s ==> x >= start
    requires forall i: nat :: i in shifted <==> start + i in s
    ensures |shifted| == |s|
    decreases s
  {
    if s != {} {
      var x :| x in s;
      assert start + (x - start) in s;
      ShiftSize(shifted - {x - start}, s - {x}, start);
    } else {
      assert forall i: nat :: i in shifted ==> start + i in s;
    }
  }

  // ---- Rebuilding a batch ----

  lemma OriginalsSize(dataBuffer: map<nat, Bytes>, start: nat, dataSize: nat)
    requires forall c :: c in dataBuffer ==> start <= c < start + dataSize
    ensures |Originals(dataBuffer, start, dataSize)| == |dataBuffer|
  {
    hide Pad;
    ShiftSize(Originals(dataBuffer, start, dataSize).Keys, dataBuffer.Keys, start);
  }

  lemma OriginalsAreShards(dataBuffer: map<nat, Bytes>, data: Bytes, b: nat)
    requires ChunksMatch(dataBuffer, data, b)
    ensures SomeOf(Originals(dataBuffer, b * BATCH_DATA_CHUNKS, BatchDataSize(b, |data|)), BatchShards(data, b))
  {
    hide BatchDataSize, Pad, Chunk, TotalChunks, BatchForData, BatchShards;
    var start := b * BATCH_DATA_CHUNKS;
    forall i | i in Originals(dataBuffer, start, BatchDataSize(b, |data|))
      ensures Originals(dataBuffer, start, BatchDataSize(b, |data|))[i] == Shard(data, b, i)
    {
      assert dataBuffer[start + i] == Chunk(data, start + i);
    }
  }

  /** The buffered chunks become that many of the batch's shards. */
  lemma OriginalsMatch(dataBuffer: map<nat, Bytes>, data: Bytes, b: nat)
    requires ChunksMatch(dataBuffer, data, b)
    ensures var originals := Originals(dataBuffer, b * BATCH_DATA_CHUNKS, BatchDataSize(b, |data|));
            SomeOf(originals, BatchShards(data, b)) && |originals| == |dataBuffer|
  {
    hide *;
    OriginalsAreShards(dataBuffer, data, b);
    ChunksInRange(dataBuffer, data, b);
    OriginalsSize(dataBuffer, b * BATCH_DATA_CHUNKS, BatchDataSize(b, |data|));
  }

  lemma ChunksInRange(dataBuffer: map<nat, Bytes>, data: Bytes, b: nat)
    requires ChunksMatch(dataBuffer, data, b)
    ensures forall c :: c in dataBuffer ==>
              b * BATCH_DATA_CHUNKS <= c < b * BATCH_DATA_CHUNKS + BatchDataSize(b, |data|)
  {
    forall c | c in dataBuffer
      ensures b * BATCH_DATA_CHUNKS <= c < b * BATCH_DATA_CHUNKS + BatchDataSize(b, |data|)
    {
      ChunkInBatch(c, b, |data|);
    }
  }

  /** Buffered parity is passed on unchanged. */
  lemma RecoveryMatch(parityBuffer: map<nat, Bytes>, parity: seq<Bytes>)
    requires SomeOf(parityBuffer, parity) && AreShards(parity)
    ensures Recovery(parityBuffer, |parity|) == parityBuffer
  {
    assert forall i :: i in parityBuffer ==> parityBuffer[i][..SHARD_SIZE] == parityBuffer[i];
  }

  lemma Decodes(libs: Libraries, shards: seq<Bytes>, originals: map<nat, Bytes>, recovery: map<nat, Bytes>)
    requires Reliable(libs) && 1 <= |shards| <= BATCH_DATA_CHUNKS && AreShards(shards)
    requires SomeOf(originals, shards) && SomeOf(recovery, libs.encode(BATCH_PARITY_CHUNKS, shards))
    requires |originals| + |recovery| >= |shards|
    ensures libs.decode(|shards|, BATCH_PARITY_CHUNKS, originals, recovery) == Some(Missing(originals, shards))
  {
    hide AreShards, SomeOf, Missing;
    assert Recovers(libs.encode, libs.decode, |shards|, BATCH_PARITY_CHUNKS);
  }

  /** With enough packets, the decoder gives back exactly the chunks of the batch that are missing. */
  lemma DecoderExact(libs: Libraries, data: Bytes, b: nat, dataBuffer: map<nat, Bytes>, parityBuffer: map<nat, Bytes>)
    requires Reliable(libs) && b < BatchCount(|data|)
    requires ChunksMatch(dataBuffer, data, b) && SomeOf(parityBuffer, ParityShards(libs, data, b))
    requires |dataBuffer| + |parityBuffer| >= BatchDataSize(b, |data|)
    ensures var dataSize := BatchDataSize(b, |data|);
            var originals := Originals(dataBuffer, b * BATCH_DATA_CHUNKS, dataSize);
            libs.decode(dataSize, BATCH_PARITY_CHUNKS, originals, Recovery(parityBuffer, BATCH_PARITY_CHUNKS))
              == Some(Missing(originals, BatchShards(data, b)))
  {
    assert libs.encode(BATCH_PARITY_CHUNKS, BatchShards(data, b)) == ParityShards(libs, data, b);
    assert BatchDataSize(b, |data|) <= BATCH_DATA_CHUNKS;
    hide *;
    BatchSizes(b, |data|);
    OriginalsMatch(dataBuffer, data, b);
    ParityShardsComplete(libs, data, b);
    RecoveryMatch(parityBuffer, ParityShards(libs, data, b));
    Decodes(libs, BatchShards(data, b), Originals(dataBuffer, b * BATCH_DATA_CHUNKS, BatchDataSize(b, |data|)),
            parityBuffer);
  }

  /** The outcome of closing the batch is known: the code works, or is not needed. */
  ghost predicate Decodable(libs: Libraries, t: Tracker, fileSize: nat) {
    Reliable(libs) || !NeedsDecoder(t, fileSize)
  }

  /** The same of every batch that the events close, and of the one they end in. */
  ghost predicate Assured(libs: Libraries, events: seq<Event>, fileSize: nat) {
    || Reliable(libs)
    || (NeverDecodes(NOTHING_YET, events, fileSize) && !NeedsDecoder(TrackAll(NOTHING_YET, events, fileSize), fileSize))
  }

  /** The collected batch `t.batch` of `src`, whatever the state of the file. */
  ghost predicate Collected(libs: Libraries, src: Source, s: State, t: Tracker) {
    && !t.failed && Decodable(libs, t, |src.data|) && BuffersMatch(libs, src, s, t)
    && s.currentBatch == t.batch < BatchCount(|src.data|)
    && s.fileSize == |src.data| && s.parityPerBatch == BATCH_PARITY_CHUNKS
  }

  /** What the decoder hands to the write loop, by the number of packets that arrived. */
  lemma RestoredExact(libs: Libraries, src: Source, s: State, t: Tracker)
    requires Collected(libs, src, s, t)
    ensures Restored(libs, s) ==
            if |t.data| >= CurrentDataSize(s) then Some(map[])
            else if !Enough(t, |src.data|) then None
            else Some(Missing(Originals(s.dataBuffer, BatchStart(s), CurrentDataSize(s)),
                              BatchShards(src.data, t.batch)))
  {
    assert |t.data| == |s.dataBuffer| && |t.parity| == |s.parityBuffer|;
    if NeedsDecoder(t, |src.data|) {
      DecoderExact(libs, src.data, t.batch, s.dataBuffer, s.parityBuffer);
    }
    hide Originals, Recovery, BatchShards, BatchDataSize, Missing, Reliable, BuffersMatch;
  }

  /** A chunk from the buffer or from the decoder is the sender's chunk, cut to its length. */
  lemma RebuiltChunk(src: Source, s: State, restored: map<nat, Bytes>, i: nat)
    requires s.fileSize == |src.data| && i < CurrentDataSize(s)
    requires BatchStart(s) + i < TotalChunks(|src.data|)
    requires BatchStart(s) + i in s.dataBuffer ==> s.dataBuffer[BatchStart(s) + i] == Chunk(src.data, BatchStart(s) + i)
    requires BatchStart(s) + i !in s.dataBuffer ==> i in restored && restored[i] == Shard(src.data, s.currentBatch, i)
    ensures Rebuilds(s, restored, src.data, i)
  {
    var chunk := Chunk(src.data, BatchStart(s) + i);
    assert chunk[..|chunk|] == chunk;
    assert Pad(chunk)[..|chunk|] == chunk;
  }

  /** With enough packets every chunk of the batch is written as the sender read it. */
  lemma EveryChunkRebuilt(libs: Libraries, src: Source, s: State, t: Tracker, i: nat)
    requires Collected(libs, src, s, t) && Enough(t, |src.data|) && i < CurrentDataSize(s)
    ensures Restored(libs, s).Some? && Rebuilds(s, Restored(libs, s).value, src.data, i)
  {
    var start, dataSize := BatchStart(s), CurrentDataSize(s);
    RestoredExact(libs, src, s, t);
    ChunkInBatch(start + i, t.batch, |src.data|);
    if |t.data| >= dataSize {
      ChunksInRange(s.dataBuffer, src.data, t.batch);
      FullInterval(t.data, start, dataSize);
    }
    hide Restored, BatchDataSize, Chunk, Pad, Reliable;
    RebuiltChunk(src, s, Restored(libs, s).value, i);
  }

  /** Where the writes of batch `b` start and end. */
  lemma BatchExtent(b: nat, fileSize: nat)
    requires b < BatchCount(fileSize)
    ensures BatchDataSize(b, fileSize) > 0
    ensures Reached(b, fileSize) == b * BATCH_DATA_CHUNKS * CHUNK_SIZE
    ensures Reached(b + 1, fileSize)
              == Min((b * BATCH_DATA_CHUNKS + BatchDataSize(b, fileSize)) * CHUNK_SIZE, fileSize)
  {
    BatchSizes(b, fileSize);
    if b > 0 {
      BatchSizes(b - 1, fileSize);
    }
  }

  /** If every chunk of the batch is rebuilt, the write loop fills the file to the end of the batch. */
  lemma WholeBatchFills(s: State, restored: map<nat, Bytes>, data: Bytes)
    requires s.fileSize == |data| && s.currentBatch < BatchCount(|data|)
    requires forall i :: 0 <= i < CurrentDataSize(s) ==> Rebuilds(s, restored, data, i)
    ensures WriteChunks(s, restored, Filled(data, Reached(s.currentBatch, |data|)), BatchStart(s) * CHUNK_SIZE, 0, None)
              == (true, Filled(data, Reached(s.currentBatch + 1, |data|)))
  {
    BatchExtent(s.currentBatch, |data|);
    hide BatchDataSize, BatchCount, WriteChunks, Reached, Rebuilds, Filled;
    WriteChunksFills(s, restored, data, 0, BatchStart(s) * CHUNK_SIZE);
  }

  /** Writing a batch of which enough arrived fills the file to the end of that batch. */
  lemma WrittenBatch(libs: Libraries, src: Source, s: State, t: Tracker)
    requires Collected(libs, src, s, t) && Enough(t, |src.data|)
    ensures Restored(libs, s).Some?
    ensures WriteChunks(s, Restored(libs, s).value, Filled(src.data, Reached(t.batch, |src.data|)),
                        BatchStart(s) * CHUNK_SIZE, 0, None)
              == (true, Filled(src.data, Reached(t.batch + 1, |src.data|)))
  {
    BatchExtent(t.batch, |src.data|);
    hide BatchDataSize, BatchCount, Restored, WriteChunks, Reached, Rebuilds, BuffersMatch, Reliable, Enough, Filled;
    forall i | 0 <= i < CurrentDataSize(s)
      ensures Restored(libs, s).Some? && Rebuilds(s, Restored(libs, s).value, src.data, i)
    {
      EveryChunkRebuilt(libs, src, s, t, i);
    }
    EveryChunkRebuilt(libs, src, s, t, 0);
    WholeBatchFills(s, Restored(libs, s).value, src.data);
  }

  /** A batch is finalized exactly when enough of it arrived, and then the file is filled to its end. */
  lemma FinalizeExact(libs: Libraries, src: Source, s: State, files: Files, t: Tracker)
    requires !t.failed && Decodable(libs, t, |src.data|) && BuffersMatch(libs, src, s, t)
    requires InFlight(libs, src, s, files, t.batch)
    requires t.batch == 0 || t.batch < BatchCount(|src.data|)
    ensures var done := FinalizeCurrentBatch(libs, s, files, None);
            && (done.ok <==> Enough(t, |src.data|))
            && (done.ok ==>
                  && done.state == ClearBuffers(s)
                  && done.files == files[Partial(src.path) := Filled(src.data, Reached(t.batch + 1, |src.data|))])
  {
    var size := |src.data|;
    if t.batch < BatchCount(size) {
      FinalizeNonEmpty(libs, src, s, files, t);
    } else {
      BatchSizes(0, size);
      assert Reached(1, size) == Reached(0, size) == 0;
    }
  }

  lemma FinalizeNonEmpty(libs: Libraries, src: Source, s: State, files: Files, t: Tracker)
    requires Collected(libs, src, s, t) && InFlight(libs, src, s, files, t.batch)
    ensures var done := FinalizeCurrentBatch(libs, s, files, None);
            && (done.ok <==> Enough(t, |src.data|))
            && (done.ok ==>
                  && done.state == ClearBuffers(s)
                  && done.files == files[Partial(src.path) := Filled(src.data, Reached(t.batch + 1, |src.data|))])
  {
    hide BatchCount, BatchDataSize, Reached, BuffersMatch, Reliable, Filled, WriteChunks, Restored, Missing, Originals;
    BatchExtent(t.batch, |src.data|);
    RestoredExact(libs, src, s, t);
    if Enough(t, |src.data|) {
      WrittenBatch(libs, src, s, t);
    }
  }
}
