/** Closing a batch of which anything may be in the buffers: when it succeeds, and what is then in the file. */
module Closing {
  import opened Basics
  import opened Batches
  import opened Erasure
  import opened Receiver
  import opened Accounting

  // ---- What the decoder is given ----

  /** Whatever arrived, the decoder gets originals of 960 bytes under numbers of the batch, each its chunk, padded. */
  lemma OriginalsFit(s: State, i: nat)
    requires BuffersFit(s) && i in Originals(s.dataBuffer, BatchStart(s), CurrentDataSize(s))
    ensures i < CurrentDataSize(s) && BatchStart(s) + i in s.dataBuffer
    ensures var shard := Originals(s.dataBuffer, BatchStart(s), CurrentDataSize(s))[i];
            |shard| == 960 && s.dataBuffer[BatchStart(s) + i] <= shard
  {
    hide PayloadBytes, CurrentDataSize, BatchStart;
  }

  /** And recovery shards of 960 bytes, as they arrived, exactly those under numbers that START announced. */
  lemma RecoveryFits(s: State, i: nat)
    requires BuffersFit(s)
    ensures i in Recovery(s.parityBuffer, s.parityPerBatch) <==> i in s.parityBuffer && i < s.parityPerBatch
    ensures i in Recovery(s.parityBuffer, s.parityPerBatch) ==>
              Recovery(s.parityBuffer, s.parityPerBatch)[i] == s.parityBuffer[i] && |s.parityBuffer[i]| == 960
  {
    hide PayloadBytes;
  }

  /** Where START announced no parity, a batch with a chunk missing is never closed, whatever the library would say. */
  lemma NoParityNoRecovery(libs: Libraries, s: State, files: Files, bad: Option<BadWrite>)
    requires s.parityPerBatch == 0 && |s.dataBuffer| < CurrentDataSize(s)
    ensures !FinalizeCurrentBatch(libs, s, files, bad).ok
  {
    hide WriteChunks, BatchDataSize;
  }

  /** Nor is one of which fewer packets arrived than it has chunks. */
  lemma TooFewNoRecovery(libs: Libraries, s: State, files: Files, bad: Option<BadWrite>)
    requires |s.dataBuffer| + |s.parityBuffer| < CurrentDataSize(s)
    ensures !FinalizeCurrentBatch(libs, s, files, bad).ok
  {
    hide WriteChunks, BatchDataSize;
  }

  // ---- What is written ----

  /** The bytes there are for chunk `i`: those that arrived, or else those the decoder gave. */
  function Available(s: State, restored: map<nat, Bytes>, i: nat): Option<Bytes> {
    if BatchStart(s) + i in s.dataBuffer then Some(s.dataBuffer[BatchStart(s) + i])
    else if i in restored then Some(restored[i])
    else None
  }

  /** A chunk is written if there are enough bytes for it; never from the decoder if it arrived itself. */
  lemma WrittenIfAvailable(s: State, restored: map<nat, Bytes>, i: nat)
    ensures var chunk := ChunkToWrite(s, restored, i); var bytes := Available(s, restored, i);
            var len := ExpectedLen(BatchStart(s) + i, s.fileSize);
            && (chunk.Some? <==> bytes.Some? && |bytes.value| >= len)
            && (chunk.Some? ==> |chunk.value| == len && chunk.value <= bytes.value)
  {
    hide ExpectedLen;
  }

  /** The turn of the loop for chunk `i` succeeds. */
  predicate Writes(s: State, restored: map<nat, Bytes>, bad: Option<BadWrite>, i: nat) {
    ChunkToWrite(s, restored, i).Some? && !Fails(bad, BatchStart(s) + i)
  }

  function Place(s: State, i: nat): nat {
    (BatchStart(s) + i) * CHUNK_SIZE
  }

  /** Chunk `i` is in the file. */
  predicate InPlace(s: State, restored: map<nat, Bytes>, content: Bytes, i: nat)
    requires ChunkToWrite(s, restored, i).Some?
  {
    var chunk := ChunkToWrite(s, restored, i).value;
    Place(s, i) + |chunk| <= |content| && content[Place(s, i)..Place(s, i) + |chunk|] == chunk
  }

  lemma WriteAtIs(content: Bytes, pos: nat, data: Bytes)
    requires pos + |data| <= |content|
    ensures var now := WriteAt(content, pos, data);
            && |now| == |content| && now[..pos] == content[..pos]
            && now[pos..pos + |data|] == data && now[pos + |data|..] == content[pos + |data|..]
  {
  }

  /** The loop from chunk `i` on succeeds exactly if each of its turns does. */
  lemma {:induction false} LoopSucceeds(
      s: State, restored: map<nat, Bytes>, content: Bytes, pos: nat, i: nat, bad: Option<BadWrite>)
    ensures WriteChunks(s, restored, content, pos, i, bad).0 <==>
            forall j :: i <= j < CurrentDataSize(s) ==> Writes(s, restored, bad, j)
    decreases CurrentDataSize(s) - i
  {
    hide ChunkToWrite, WriteAt, CurrentDataSize, BatchStart;
    if i < CurrentDataSize(s) {
      if Writes(s, restored, bad, i) {
        var chunk := ChunkToWrite(s, restored, i).value;
        LoopSucceeds(s, restored, WriteAt(content, pos, chunk), pos + |chunk|, i + 1, bad);
      }
    }
  }

  /** Later turns of the loop leave what is before them alone. */
  lemma {:induction false} LoopKeepsFront(
      s: State, restored: map<nat, Bytes>, content: Bytes, i: nat, bad: Option<BadWrite>)
    requires |content| == s.fileSize && i < CurrentDataSize(s)
    ensures Place(s, i) <= |content|
    ensures var after := WriteChunks(s, restored, content, Place(s, i), i, bad).1;
            |after| == |content| && after[..Place(s, i)] == content[..Place(s, i)]
    decreases CurrentDataSize(s) - i
  {
    hide ChunkToWrite, WriteAt, CurrentDataSize, BatchStart;
    PlaceInFile(s, i);
    if ChunkToWrite(s, restored, i).Some? {
      var chunk, pos := ChunkToWrite(s, restored, i).value, Place(s, i);
      ChunkFits(s, restored, i);
      WriteAtIs(content, pos, chunk);
      if Fails(bad, BatchStart(s) + i) {
        WriteAtIs(content, pos, chunk[..Min(bad.value.kept, |chunk|)]);
      } else if i + 1 < CurrentDataSize(s) {
        var now := WriteAt(content, pos, chunk);
        LoopKeepsFront(s, restored, now, i + 1, bad);
        var after := WriteChunks(s, restored, now, Place(s, i + 1), i + 1, bad).1;
        assert after[..pos] == after[..Place(s, i + 1)][..pos];
        assert now[..pos] == now[..Place(s, i + 1)][..pos];
      } else {
        NoChunkLeft(s, restored, WriteAt(content, pos, chunk), pos + |chunk|, i + 1, bad);
      }
    }
  }

  lemma PlaceInFile(s: State, i: nat)
    requires i < CurrentDataSize(s)
    ensures Place(s, i) <= s.fileSize
  {
    ChunkInBatch(BatchStart(s) + i, s.currentBatch, s.fileSize);
    ChunkPlacement(BatchStart(s) + i, s.fileSize);
  }

  /** Every chunk that the loop gets to write is where it belongs in the end, also when a later turn fails. */
  lemma {:induction false} LoopPlaces(
      s: State, restored: map<nat, Bytes>, content: Bytes, i: nat, k: nat, bad: Option<BadWrite>)
    requires |content| == s.fileSize && i <= k < CurrentDataSize(s)
    requires forall j :: i <= j <= k ==> Writes(s, restored, bad, j)
    ensures ChunkToWrite(s, restored, k).Some?
    ensures InPlace(s, restored, WriteChunks(s, restored, content, Place(s, i), i, bad).1, k)
    decreases CurrentDataSize(s) - i
  {
    hide ChunkToWrite, WriteAt, CurrentDataSize, BatchStart;
    assert Writes(s, restored, bad, i);
    var chunk, pos := ChunkToWrite(s, restored, i).value, Place(s, i);
    ChunkFits(s, restored, i);
    WriteAtIs(content, pos, chunk);
    var now := WriteAt(content, pos, chunk);
    if i + 1 < CurrentDataSize(s) {
      if i < k {
        LoopPlaces(s, restored, now, i + 1, k, bad);
      } else {
        LoopKeepsFront(s, restored, now, i + 1, bad);
        var after := WriteChunks(s, restored, now, Place(s, i + 1), i + 1, bad).1;
        assert after[pos..pos + |chunk|] == after[..Place(s, i + 1)][pos..];
        assert now[pos..pos + |chunk|] == now[..Place(s, i + 1)][pos..];
      }
    } else {
      NoChunkLeft(s, restored, now, pos + |chunk|, i + 1, bad);
    }
  }

  /** What a turn that fails leaves of its chunk: nothing without a chunk, and else what the failing write kept. */
  function LeftBy(s: State, restored: map<nat, Bytes>, bad: Option<BadWrite>, k: nat): Bytes {
    var chunk := ChunkToWrite(s, restored, k);
    if chunk.None? || bad.None? then [] else chunk.value[..Min(bad.value.kept, |chunk.value|)]
  }

  lemma SameFurtherOn(a: Bytes, b: Bytes, from: nat, to: nat)
    requires from <= to <= |a| == |b| && a[from..] == b[from..]
    ensures a[to..] == b[to..]
  {
    assert a[to..] == a[from..][to - from..] && b[to..] == b[from..][to - from..];
  }

  /** The turn that fails. */
  lemma StopsHere(s: State, restored: map<nat, Bytes>, content: Bytes, k: nat, bad: Option<BadWrite>)
    requires |content| == s.fileSize && k < CurrentDataSize(s) && !Writes(s, restored, bad, k)
    ensures var after := WriteChunks(s, restored, content, Place(s, k), k, bad).1;
            var left := LeftBy(s, restored, bad, k); var end := Place(s, k) + |left|;
            end <= |after| == |content| && after[Place(s, k)..end] == left && after[end..] == content[end..]
  {
    hide ChunkToWrite, WriteAt, CurrentDataSize, BatchStart;
    PlaceInFile(s, k);
    if ChunkToWrite(s, restored, k).Some? {
      ChunkFits(s, restored, k);
      if bad.Some? {
        WriteAtIs(content, Place(s, k), LeftBy(s, restored, bad, k));
      }
    }
  }

  /** The turn that fails is the last one: after what it leaves, the file is as it was. */
  lemma {:induction false} LoopStops(
      s: State, restored: map<nat, Bytes>, content: Bytes, i: nat, k: nat, bad: Option<BadWrite>)
    requires |content| == s.fileSize && i <= k < CurrentDataSize(s)
    requires !Writes(s, restored, bad, k) && forall j :: i <= j < k ==> Writes(s, restored, bad, j)
    ensures var after := WriteChunks(s, restored, content, Place(s, i), i, bad).1;
            var left := LeftBy(s, restored, bad, k); var end := Place(s, k) + |left|;
            end <= |after| == |content| && after[Place(s, k)..end] == left && after[end..] == content[end..]
    decreases k - i
  {
    hide ChunkToWrite, WriteAt, CurrentDataSize, BatchStart, LeftBy;
    if i < k {
      assert Writes(s, restored, bad, i);
      var chunk, pos := ChunkToWrite(s, restored, i).value, Place(s, i);
      ChunkFits(s, restored, i);
      WriteAtIs(content, pos, chunk);
      var now := WriteAt(content, pos, chunk);
      LoopStops(s, restored, now, i + 1, k, bad);
      SameFurtherOn(now, content, pos + |chunk|, Place(s, k) + |LeftBy(s, restored, bad, k)|);
    } else {
      StopsHere(s, restored, content, k, bad);
    }
  }

  /**
    Closing a batch, whatever is in the buffers: it succeeds exactly if the batch is empty or every chunk has its
    bytes and every write succeeds.
  */
  lemma ClosesExactly(libs: Libraries, s: State, files: Files, bad: Option<BadWrite>)
    requires OutputFits(s, files)
    ensures var restored := Restored(libs, s);
            FinalizeCurrentBatch(libs, s, files, bad).ok <==>
              || CurrentDataSize(s) == 0
              || (restored.Some? && forall i :: 0 <= i < CurrentDataSize(s) ==> Writes(s, restored.value, bad, i))
  {
    hide WriteChunks, Restored, Writes, BatchDataSize;
    if CurrentDataSize(s) > 0 && Restored(libs, s).Some? {
      LoopSucceeds(s, Restored(libs, s).value, files[s.output.value], Place(s, 0), 0, bad);
    }
  }

  /** Whether it succeeds or not, every chunk before the first that cannot be written is in the file, in its place. */
  lemma EarlierChunksInPlace(libs: Libraries, s: State, files: Files, bad: Option<BadWrite>, i: nat)
    requires OutputFits(s, files) && i < CurrentDataSize(s) && Restored(libs, s).Some?
    requires forall j :: 0 <= j <= i ==> Writes(s, Restored(libs, s).value, bad, j)
    ensures var done := FinalizeCurrentBatch(libs, s, files, bad); var restored := Restored(libs, s).value;
            && s.output.value in done.files && ChunkToWrite(s, restored, i).Some?
            && InPlace(s, restored, done.files[s.output.value], i)
  {
    hide WriteChunks, Restored, Writes, InPlace, BatchDataSize;
    LoopPlaces(s, Restored(libs, s).value, files[s.output.value], 0, i, bad);
  }

  /** Of the first chunk that cannot be written there is what its write kept; after that the file is as it was. */
  lemma FirstFailureStops(libs: Libraries, s: State, files: Files, bad: Option<BadWrite>, k: nat)
    requires OutputFits(s, files) && k < CurrentDataSize(s) && Restored(libs, s).Some?
    requires !Writes(s, Restored(libs, s).value, bad, k)
    requires forall j :: 0 <= j < k ==> Writes(s, Restored(libs, s).value, bad, j)
    ensures var done := FinalizeCurrentBatch(libs, s, files, bad); var before := files[s.output.value];
            var left := LeftBy(s, Restored(libs, s).value, bad, k); var end := Place(s, k) + |left|;
            && s.output.value in done.files
            && var after := done.files[s.output.value];
               end <= |after| == |before| && after[Place(s, k)..end] == left && after[end..] == before[end..]
  {
    hide WriteChunks, Restored, Writes, LeftBy, BatchDataSize;
    LoopStops(s, Restored(libs, s).value, files[s.output.value], 0, k, bad);
  }
}
