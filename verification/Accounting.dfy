/**
  What the receiver keeps true whatever arrives: the buffer accounting, the size of the output file and
  the freshness of an idle receiver. Nothing here assumes that packets come from a sender.
 */
module Accounting {
  import opened Basics
  import opened Batches
  import opened Wire
  import opened Erasure
  import opened Receiver

  /** Most bytes the buffers of one batch can hold. */
  const MOST_BUFFERED: nat := BATCH_DATA_CHUNKS * CHUNK_SIZE + BATCH_PARITY_CHUNKS * SHARD_SIZE

  ghost predicate BuffersFit(s: State) {
    && (forall k :: k in s.dataBuffer ==> BatchForData(k) == s.currentBatch && 1 <= |s.dataBuffer[k]| <= CHUNK_SIZE)
    && (forall k :: k in s.parityBuffer ==> k < BATCH_PARITY_CHUNKS && |s.parityBuffer[k]| == SHARD_SIZE)
    && s.bytesBuffered == PayloadBytes(s.dataBuffer) + PayloadBytes(s.parityBuffer)
  }

  /** A busy receiver has its partial file, of exactly the declared size. */
  ghost predicate OutputFits(s: State, files: Files) {
    && s.filePath.Some? && s.pathHash.Some?
    && s.output == Some(Partial(s.filePath.value))
    && s.output.value in files
    && |files[s.output.value]| == s.fileSize
  }

  /** An idle receiver is fresh. */
  ghost predicate WellFormed(w: World) {
    if w.state.filePath.None? then w.state == FRESH else BuffersFit(w.state) && OutputFits(w.state, w.files)
  }

  // ---- Buffers ----

  lemma EmptyBuffersFit(s: State)
    requires s.dataBuffer == map[] && s.parityBuffer == map[] && s.bytesBuffered == 0
    ensures BuffersFit(s)
  {
  }

  /** The two buffers together never exceed 1,036,000 bytes. */
  lemma BufferedBound(s: State)
    requires BuffersFit(s)
    ensures |s.dataBuffer| <= BATCH_DATA_CHUNKS && |s.parityBuffer| <= BATCH_PARITY_CHUNKS
    ensures s.bytesBuffered <= MOST_BUFFERED == 1_036_000
  {
    IntervalSize(s.dataBuffer.Keys, BatchStart(s), BATCH_DATA_CHUNKS);
    IntervalSize(s.parityBuffer.Keys, 0, BATCH_PARITY_CHUNKS);
    PayloadBytesBound(s.dataBuffer, CHUNK_SIZE);
    PayloadBytesBound(s.parityBuffer, SHARD_SIZE);
  }

  /** A valid chunk of the current batch is always taken: the 8 MiB cap never fires and the buffered bytes are exact. */
  lemma BufferDataKeeps(s: State, stats: Stats, p: Packet)
    requires BuffersFit(s)
    requires 1 <= |p.data| <= CHUNK_SIZE && BatchForData(p.count) == s.currentBatch
    ensures var s' := BufferData(s, stats, p).0;
            && BuffersFit(s')
            && s' == s.(dataBuffer := if p.count in s.dataBuffer then s.dataBuffer else s.dataBuffer[p.count := p.data],
                        bytesBuffered := s'.bytesBuffered, bytesTransferred := s'.bytesTransferred)
            && s'.bytesTransferred == (if p.count in s.dataBuffer then s.bytesTransferred
                                       else SaturatingAdd(s.bytesTransferred, |p.data|))
  {
    if p.count !in s.dataBuffer {
      PayloadBytesInsert(s.dataBuffer, p.count, p.data);
      BufferedBound(s.(dataBuffer := s.dataBuffer[p.count := p.data], bytesBuffered := s.bytesBuffered + |p.data|));
    }
  }

  /** Likewise for a parity shard. */
  lemma BufferParityKeeps(s: State, p: Packet, idx: nat)
    requires BuffersFit(s)
    requires |p.data| == SHARD_SIZE && idx < BATCH_PARITY_CHUNKS
    ensures var s' := BufferParity(s, p, idx);
            && BuffersFit(s')
            && s' == s.(parityBuffer := if idx in s.parityBuffer then s.parityBuffer else s.parityBuffer[idx := p.data],
                        bytesBuffered := s'.bytesBuffered)
  {
    if idx !in s.parityBuffer {
      PayloadBytesInsert(s.parityBuffer, idx, p.data);
      BufferedBound(s.(parityBuffer := s.parityBuffer[idx := p.data], bytesBuffered := s.bytesBuffered + |p.data|));
    }
  }

  // ---- The output file ----

  /** Where chunk `i` ends, and that only the last chunk of the file is short. */
  lemma ChunkFits(s: State, restored: map<nat, Bytes>, i: nat)
    requires i < CurrentDataSize(s) && ChunkToWrite(s, restored, i).Some?
    ensures var chunk := ChunkToWrite(s, restored, i).value;
            && (BatchStart(s) + i) * CHUNK_SIZE + |chunk| <= s.fileSize
            && (i + 1 < CurrentDataSize(s) ==> |chunk| == CHUNK_SIZE)
  {
    ChunkPlacement(BatchStart(s) + i, s.fileSize);
    hide ExpectedLen;
  }

  lemma WriteInBounds(content: Bytes, pos: nat, data: Bytes)
    requires pos + |data| <= |content|
    ensures |WriteAt(content, pos, data)| == |content|
  {
  }

  lemma NoChunkLeft(s: State, restored: map<nat, Bytes>, content: Bytes, pos: nat, i: nat, bad: Option<BadWrite>)
    requires i >= CurrentDataSize(s)
    ensures WriteChunks(s, restored, content, pos, i, bad) == (true, content)
  {
  }

  /** No write of a batch extends the file, whether or not all of its chunks can be written. */
  lemma {:induction false} WriteChunksInBounds(
      s: State, restored: map<nat, Bytes>, content: Bytes, i: nat, bad: Option<BadWrite>)
    requires |content| == s.fileSize
    ensures |WriteChunks(s, restored, content, (BatchStart(s) + i) * CHUNK_SIZE, i, bad).1| == s.fileSize
    decreases CurrentDataSize(s) - i
  {
    hide ChunkToWrite, WriteAt, CurrentDataSize, BatchStart;
    if i < CurrentDataSize(s) && ChunkToWrite(s, restored, i).Some? {
      var chunk, pos := ChunkToWrite(s, restored, i).value, (BatchStart(s) + i) * CHUNK_SIZE;
      ChunkFits(s, restored, i);
      WriteInBounds(content, pos, chunk);
      if Fails(bad, BatchStart(s) + i) {
        WriteInBounds(content, pos, chunk[..Min(bad.value.kept, |chunk|)]);
      } else if i + 1 < CurrentDataSize(s) {
        WriteChunksInBounds(s, restored, WriteAt(content, pos, chunk), i + 1, bad);
      } else {
        NoChunkLeft(s, restored, WriteAt(content, pos, chunk), pos + |chunk|, i + 1, bad);
      }
    }
  }

  lemma FinalizeKeeps(libs: Libraries, s: State, files: Files, bad: Option<BadWrite>)
    requires s.filePath.Some? && BuffersFit(s) && OutputFits(s, files)
    ensures var done := FinalizeCurrentBatch(libs, s, files, bad);
            && BuffersFit(done.state) && OutputFits(done.state, done.files)
            && (done.ok ==> done.state == ClearBuffers(s))
            && (!done.ok ==> done.state == s)
            && done.files.Keys == files.Keys
            && forall n :: n in files && n != s.output.value ==> done.files[n] == files[n]
  {
    hide WriteChunks, Restored, PayloadBytes, BatchDataSize;
    EmptyBuffersFit(ClearBuffers(s));
    if CurrentDataSize(s) > 0 && Restored(libs, s).Some? {
      WriteChunksInBounds(s, Restored(libs, s).value, files[s.output.value], 0, bad);
    }
  }

  lemma {:induction false} AdvanceKeeps(libs: Libraries, s: State, files: Files, target: nat, bad: Option<BadWrite>)
    requires s.filePath.Some? && BuffersFit(s) && OutputFits(s, files)
    ensures var (s', files') := AdvanceToBatch(libs, s, files, target, bad);
            && BuffersFit(s') && OutputFits(s', files')
            && s' == s.(currentBatch := s'.currentBatch, dataBuffer := s'.dataBuffer, parityBuffer := s'.parityBuffer,
                        bytesBuffered := s'.bytesBuffered, failed := s'.failed)
            && s.currentBatch <= s'.currentBatch <= Max(s.currentBatch, target)
            && (s.failed ==> s'.failed)
            && (s'.failed && !s.failed ==> s'.currentBatch < target)
            && (!s'.failed ==> s'.currentBatch == Max(s.currentBatch, target))
            && (!s'.failed && s'.currentBatch > s.currentBatch ==> s'.dataBuffer == map[] && s'.parityBuffer == map[])
            && (s'.currentBatch == s.currentBatch ==> s' == s.(failed := s'.failed))
            && files'.Keys == files.Keys
            && forall n :: n in files && n != s.output.value ==> files'[n] == files[n]
    decreases target - s.currentBatch
  {
    hide FinalizeCurrentBatch, PayloadBytes;
    if !s.failed && s.currentBatch < target {
      FinalizeKeeps(libs, s, files, bad);
      var done := FinalizeCurrentBatch(libs, s, files, bad);
      if done.ok {
        EmptyBuffersFit(done.state.(currentBatch := s.currentBatch + 1));
        AdvanceKeeps(libs, done.state.(currentBatch := s.currentBatch + 1), done.files, target, bad);
      }
    }
  }

  // ---- Every packet, every run ----

  lemma ReceiveDataKeeps(libs: Libraries, w: World, p: Packet, bad: Option<BadWrite>)
    requires WellFormed(w) && w.state.filePath.Some?
    ensures WellFormed(ReceiveData(libs, w, p, bad))
  {
    if !w.state.failed && IsChunkValid(libs, p, w.state, DATA) {
      var batch := BatchForData(p.count);
      AdvanceKeeps(libs, w.state, w.files, batch, bad);
      var (s, files) := AdvanceToBatch(libs, w.state, w.files, batch, bad);
      if !s.failed && batch == s.currentBatch {
        BufferDataKeeps(s, w.stats, p);
      }
    }
  }

  lemma ReceiveParityKeeps(libs: Libraries, w: World, p: Packet, bad: Option<BadWrite>)
    requires WellFormed(w) && w.state.filePath.Some?
    ensures WellFormed(ReceiveParity(libs, w, p, bad))
  {
    if !w.state.failed && IsChunkValid(libs, p, w.state, PARITY) {
      var batch := BatchForParity(p.count);
      AdvanceKeeps(libs, w.state, w.files, batch, bad);
      var (s, files) := AdvanceToBatch(libs, w.state, w.files, batch, bad);
      if !s.failed && batch == s.currentBatch {
        BufferParityKeeps(s, p, p.count % BATCH_PARITY_CHUNKS);
      }
    }
  }

  lemma OpenTransferKeeps(libs: Libraries, w: World, path: string, size: nat, h: Field, parity: nat, io: Io)
    requires w.state == FRESH
    ensures WellFormed(OpenTransfer(libs, w, path, size, h, parity, io))
  {
    hide BuffersFit, MarkFailure;
    EmptyBuffersFit(OpenTransfer(libs, w, path, size, h, parity, io).state);
  }

  lemma NewFileKeeps(libs: Libraries, w: World, path: string, size: nat, h: Field, parity: nat, io: Io)
    requires WellFormed(w)
    ensures WellFormed(NewFile(libs, w, path, size, h, parity, io))
  {
    hide OpenTransfer, BuffersFit, MarkFailure;
    if w.state.filePath != Some(path) {
      var idle := if w.state.filePath.Some? then Abandon(w, w.state.filePath.value) else w;
      OpenTransferKeeps(libs, idle, path, size, h, parity, io);
    }
  }

  lemma FinishFileEnds(libs: Libraries, w: World, io: Io)
    ensures FinishFile(libs, w, io).state == if w.state.filePath.None? then w.state else FRESH
  {
  }

  lemma FreshIsWellFormed(w: World)
    requires w.state == FRESH
    ensures WellFormed(w)
  {
  }

  lemma ReceiveKeeps(libs: Libraries, w: World, a: Arrival)
    requires WellFormed(w)
    ensures WellFormed(Receive(libs, w, a))
  {
    var decoded := Decode(a.raw);
    if decoded.Some? {
      DispatchKeeps(libs, w, decoded.value, a.io);
    }
  }

  lemma DispatchKeeps(libs: Libraries, w: World, p: Packet, io: Io)
    requires WellFormed(w)
    ensures WellFormed(Dispatch(libs, w, p, io))
  {
    hide NewFile, ReceiveData, ReceiveParity, FinishFile, BuffersFit;
    if p.pkgType == START {
      var parity := DecodeParityField(p.dataHash);
      NewFileKeeps(libs, w, libs.lossyUtf8(p.data), p.count, p.pathHash,
                   if parity.Some? then parity.value else 0, io);
    } else if w.state.filePath.Some? {
      ReceiveDataKeeps(libs, w, p, io.badWrite);
      ReceiveParityKeeps(libs, w, p, io.badWrite);
      FinishFileEnds(libs, w, io);
      FreshIsWellFormed(FinishFile(libs, w, io));
    }
  }

  /** A receiver that has just started, over a directory with anything in it. */
  function Idle(stats: Stats, files: Files): (w: World)
    ensures w.state == FRESH
  {
    World(FRESH, stats, files)
  }

  lemma {:induction false} RunKeeps(libs: Libraries, w: World, arrivals: seq<Arrival>)
    requires WellFormed(w)
    ensures WellFormed(Run(libs, w, arrivals))
    decreases |arrivals|
  {
    hide Receive, WellFormed;
    if arrivals != [] {
      ReceiveKeeps(libs, w, arrivals[0]);
      RunKeeps(libs, Receive(libs, w, arrivals[0]), arrivals[1..]);
    }
  }

  lemma BuffersAlwaysFit(w: World)
    requires WellFormed(w)
    ensures BuffersFit(w.state)
  {
    hide BuffersFit, OutputFits;
    if w.state.filePath.None? {
      EmptyBuffersFit(w.state);
    }
  }

  lemma AccountingIsExact(w: World)
    requires WellFormed(w)
    ensures var s := w.state;
            && s.bytesBuffered == PayloadBytes(s.dataBuffer) + PayloadBytes(s.parityBuffer)
            && s.bytesBuffered <= 1_036_000 < BUFFER_BYTE_LIMIT == 8_388_608
  {
    BuffersAlwaysFit(w);
    BufferedBound(w.state);
    hide WellFormed;
  }

  /** After any datagrams whatever, the accounting is exact and the buffers are far below the 8 MiB cap. */
  lemma BufferedAfterRun(libs: Libraries, stats: Stats, files: Files, arrivals: seq<Arrival>)
    ensures var s := Run(libs, Idle(stats, files), arrivals).state;
            && s.bytesBuffered == PayloadBytes(s.dataBuffer) + PayloadBytes(s.parityBuffer)
            && s.bytesBuffered <= 1_036_000 < BUFFER_BYTE_LIMIT == 8_388_608
  {
    hide *;
    FreshIsWellFormed(Idle(stats, files));
    RunKeeps(libs, Idle(stats, files), arrivals);
    AccountingIsExact(Run(libs, Idle(stats, files), arrivals));
  }
}
